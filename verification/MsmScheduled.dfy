/**
 The scheduled Pippenger multi-scalar multiplication: additions into occupied buckets are collected
 and executed in batches, and a bucket that is already scheduled takes its points in a second,
 projective bucket.
 */
module MsmScheduled {
  import opened PowersOfTwo
  import opened PrimeField
  import opened Vectors
  import opened Booth
  import opened Curve
  import opened AffineBatch
  import opened MsmSerial

  const BATCH_SIZE: nat := 64

  const DEFAULT := SchedulePoint(0, 0, false)

  /** The pending additions' share of the weighted sum. */
  ghost function Pending(E: Curve, points: seq<SchedulePoint>, ls: seq<int>): int
    requires forall i :: 0 <= i < |points| ==> points[i].base < |ls|
  {
    if |points| == 0 then 0 else
    var pt := points[|points| - 1];
    Pending(E, points[..|points| - 1], ls) + (pt.buck + 1) * Signed(E, ls[pt.base], pt.sign)
  }

  /** The buckets after the batch. */
  ghost function After(E: Curve, points: seq<SchedulePoint>, ks: seq<int>, ls: seq<int>): (a: seq<int>)
    requires Ready(points, ks, |ls|)
    ensures |a| == |ks|
  {
    if |points| == 0 then ks else
    var pt := points[|points| - 1];
    assert Ready(points[..|points| - 1], ks, |ls|);
    After(E, points[..|points| - 1], ks, ls)[pt.buck := AffineBatch.Result(E, pt, ks, ls)]
  }

  lemma {:induction false} AfterAt(E: Curve, points: seq<SchedulePoint>, ks: seq<int>, ls: seq<int>)
    requires Ready(points, ks, |ls|) && DistinctBuckets(points)
    ensures var a := After(E, points, ks, ls);
      (forall j :: 0 <= j < |points| ==> a[points[j].buck] == AffineBatch.Result(E, points[j], ks, ls)) &&
      (forall b :: 0 <= b < |ks| && !Scheduled(points, b) ==> a[b] == ks[b])
  {
    hide Mod, Sum2;
    if |points| == 0 {
    } else {
      var n := |points| - 1;
      var a', a := After(E, points[..n], ks, ls), After(E, points, ks, ls);
      AfterAt(E, points[..n], ks, ls);
      forall j | 0 <= j < |points| ensures a[points[j].buck] == AffineBatch.Result(E, points[j], ks, ls) {
        if j < n {
          assert points[..n][j] == points[j];
        }
      }
      forall b | 0 <= b < |ks| && !Scheduled(points, b) ensures a[b] == ks[b] {
        assert points[n].buck != b;
        assert !Scheduled(points[..n], b);
      }
    }
  }

  /** Executing a batch moves the pending share into the buckets. */
  lemma {:induction false} AfterSum(E: Curve, points: seq<SchedulePoint>, ks: seq<int>, ls: seq<int>, t: int)
    requires Ready(points, ks, |ls|) && DistinctBuckets(points)
    requires t == Dot(Weights(|ks|), ks) + Pending(E, points, ls)
    ensures Cong(Dot(Weights(|ks|), After(E, points, ks, ls)), t, E.r)
  {
    hide Mod, Dot, Signed;
    if |points| == 0 {
    } else {
      var n, pt := |points| - 1, points[|points| - 1];
      var a := After(E, points[..n], ks, ls);
      var x := AffineBatch.Result(E, pt, ks, ls);
      var t' := Dot(Weights(|ks|), ks) + Pending(E, points[..n], ls);
      AfterSum(E, points[..n], ks, ls, t');
      AfterAt(E, points[..n], ks, ls);
      assert !Scheduled(points[..n], pt.buck);
      DotUpdate(a, Weights(|ks|), pt.buck, x);
      var l := Signed(E, ls[pt.base], pt.sign);
      ModCong(ks[pt.buck] + l, E.r);
      CongSub(x, ks[pt.buck] + l, ks[pt.buck], ks[pt.buck], E.r);
      WeightedStep(Dot(Weights(|ks|), a), x, ks[pt.buck], pt.buck + 1, l, Dot(Weights(|ks|), a[pt.buck := x]),
                   Dot(Weights(|ks|), a) + (pt.buck + 1) * l, E.r);
      CongSum(Dot(Weights(|ks|), a) + (pt.buck + 1) * l, t, Dot(Weights(|ks|), a), t', (pt.buck + 1) * l,
              (pt.buck + 1) * l, E.r);
    }
  }

  class Schedule {
    const E: Curve
    const buckets: array<BucketAffine>
    var entries: seq<SchedulePoint>
    var ptr: nat
    /** The point in each bucket, 0 when empty. */
    ghost var ks: seq<int>

    /** Entries before ptr are pending additions into different, occupied buckets; the rest are defaults. */
    ghost predicate Valid(ls: seq<int>)
      reads this, buckets
    {
      |entries| == BATCH_SIZE && ptr < BATCH_SIZE && Shows(E, buckets[..], ks) && Consistent(ls)
    }

    ghost predicate Consistent(ls: seq<int>)
      reads this
    {
      ptr <= |entries| == BATCH_SIZE && Ready(entries[..ptr], ks, |ls|) && DistinctBuckets(entries[..ptr]) &&
      forall i :: ptr <= i < BATCH_SIZE ==> entries[i] == DEFAULT
    }

    /** Bucket 0 is empty, and no pending addition goes to it. */
    ghost predicate ZeroIdle()
      reads this
    {
      |ks| > 0 && ks[0] == 0 && ptr <= |entries| && !Scheduled(entries[..ptr], 0)
    }

    /** The weighted sum of the buckets and the pending additions. */
    ghost function Total(ls: seq<int>): int
      reads this
      requires Consistent(ls)
    {
      Dot(Weights(|ks|), ks) + Pending(E, entries[..ptr], ls)
    }

    constructor (E: Curve, c: nat, ghost ls: seq<int>)
      requires c >= 1
      ensures this.E == E && fresh(buckets) && buckets.Length == |ks| == Pow2(c - 1)
      ensures Valid(ls) && Total(ls) == 0 && ZeroIdle()
    {
      this.E := E;
      this.buckets := new BucketAffine[Pow2(c - 1)](_ => NoPoint);
      this.entries := seq(BATCH_SIZE, _ => DEFAULT);
      this.ptr := 0;
      this.ks := Const(Pow2(c - 1), 0);
      new;
      DotZero(|ks|, Weights(|ks|));
    }

    /** Looks at all entries, so a default entry makes bucket 0 look scheduled. */
    method Contains(b: nat) returns (found: bool)
      requires |entries| == BATCH_SIZE
      ensures found <==> exists i :: 0 <= i < |entries| && entries[i].buck == b
    {
      for i := 0 to |entries|
        invariant forall j :: 0 <= j < i ==> entries[j].buck != b
      {
        if entries[i].buck == b {
          return true;
        }
      }
      return false;
    }

    method Execute(bases: seq<Affine>, ghost ls: seq<int>)
      requires IsCurve(E) && Based(E, bases, ls) && Shows(E, buckets[..], ks) && Consistent(ls)
      modifies this, buckets
      ensures Valid(ls) && ptr == 0 && |ks| == old(|ks|)
      ensures ks == old(After(E, entries[..ptr], ks, ls))
      ensures Cong(Total(ls), old(Total(ls)), E.r)
      ensures old(ZeroIdle()) ==> ZeroIdle()
    {
      hide Mod, Dot, IsCurve, Sum2, Weights;
      ghost var before, points := ks, entries[..ptr];
      if ptr != 0 {
        AffineBatch.BatchAdd(E, buckets, entries[..ptr], bases, ks, ls);
        ks := After(E, points, before, ls);
        AfterAt(E, points, before, ls);
        AfterPoints(E, points, before, ls);
        ShowsAfter(E, buckets[..], points, before, ls);
        ptr := 0;
        entries := seq(BATCH_SIZE, _ => DEFAULT);
      }
      AfterSum(E, points, before, ls, Dot(Weights(|before|), before) + Pending(E, points, ls));
    }

    method Add(bases: seq<Affine>, base: nat, buck: nat, sign: bool, ghost ls: seq<int>)
      requires IsCurve(E) && Based(E, bases, ls) && Valid(ls)
      requires base < |bases| && buck < |ks| && !Scheduled(entries[..ptr], buck)
      modifies this, buckets
      ensures Valid(ls) && |ks| == old(|ks|)
      ensures Cong(Total(ls), old(Total(ls)) + (buck + 1) * Signed(E, ls[base], sign), E.r)
      ensures old(ZeroIdle()) && buck != 0 ==> ZeroIdle()
    {
      hide Mod, Dot, IsCurve, Weights;
      ghost var total := Total(ls);
      if buckets[buck] == NoPoint {
        Assign(bases, base, buck, sign, ls);
      } else {
        Push(SchedulePoint(base, buck, sign), ls);
      }
      if ptr == |entries| {
        Execute(bases, ls);
      }
    }

    /** An empty bucket takes the point at once. */
    method Assign(bases: seq<Affine>, base: nat, buck: nat, sign: bool, ghost ls: seq<int>)
      requires IsCurve(E) && Based(E, bases, ls) && Valid(ls)
      requires base < |bases| && buck < |ks| && !Scheduled(entries[..ptr], buck) && buckets[buck] == NoPoint
      modifies this`ks, buckets
      ensures Valid(ls) && ks == old(ks)[buck := Signed(E, ls[base], sign)]
      ensures Total(ls) == old(Total(ls)) + (buck + 1) * Signed(E, ls[base], sign)
    {
      hide Mod, Dot, IsCurve, Weights, Signed;
      var x := if sign then bases[base] else Affine(bases[base].x, Mod(-bases[base].y, E.q));
      ghost var l := Signed(E, ls[base], sign);
      NegatedCoords(E, ls[base], sign);
      buckets[buck] := At(x);
      DotUpdate(ks, Weights(|ks|), buck, l);
      WeightAt(|ks|, buck);
      ks := ks[buck := l];
      forall i | 0 <= i < ptr ensures entries[..ptr][i].buck != buck {
        assert entries[..ptr][i].buck == entries[i].buck;
      }
      assert Ready(entries[..ptr], ks, |ls|);
    }

    /** An addition into an occupied bucket waits. */
    method Push(pt: SchedulePoint, ghost ls: seq<int>)
      requires Valid(ls) && pt.base < |ls| && pt.buck < |ks| && ks[pt.buck] != 0 && !Scheduled(entries[..ptr], pt.buck)
      modifies this`entries, this`ptr
      ensures Consistent(ls) && ptr == old(ptr) + 1 && entries[..ptr] == old(entries[..ptr]) + [pt]
      ensures Total(ls) == old(Total(ls)) + (pt.buck + 1) * Signed(E, ls[pt.base], pt.sign)
    {
      hide Mod, Dot, Weights, Signed;
      ghost var before := entries[..ptr];
      entries := entries[ptr := pt];
      ptr := ptr + 1;
      assert entries[..ptr] == before + [pt];
      forall i | 0 <= i < |before| ensures before[i].buck != pt.buck {
      }
      assert entries[..ptr][..|before|] == before;
    }
  }

  /** Between calls the last entry is a default one, so bucket 0 always looks scheduled. */
  lemma BucketZeroLooksScheduled(sched: Schedule, ls: seq<int>)
    requires sched.Valid(ls)
    ensures exists i :: 0 <= i < |sched.entries| && sched.entries[i].buck == 0
  {
    assert sched.entries[BATCH_SIZE - 1] == DEFAULT;
  }

  lemma WeightAt(n: nat, j: nat)
    requires j < n
    ensures Weights(n)[j] == j + 1
  {
  }

  lemma NegatedCoords(E: Curve, l: int, sign: bool)
    requires IsCurve(E) && Finite(E, l)
    ensures Finite(E, Signed(E, l, sign))
    ensures Coords(E, Signed(E, l, sign)) == if sign then Coords(E, l) else Affine(E.X(l), Mod(-E.Y(l), E.q))
  {
    hide Mod, IsCurve;
    Coordinates(E, l);
    if !sign {
      Coordinates(E, E.r - l);
      ModCong(-E.Y(l), E.q);
      CongCanonicalEqual(Mod(-E.Y(l), E.q), E.Y(E.r - l), E.q);
    }
  }

  /** The points after a batch are points. */
  lemma {:induction false} AfterPoints(E: Curve, points: seq<SchedulePoint>, ks: seq<int>, ls: seq<int>)
    requires Ready(points, ks, |ls|) && forall b :: 0 <= b < |ks| ==> IsPoint(E, ks[b])
    ensures forall b :: 0 <= b < |ks| ==> IsPoint(E, After(E, points, ks, ls)[b])
  {
    hide Mod, Signed;
    if |points| == 0 {
    } else {
      AfterPoints(E, points[..|points| - 1], ks, ls);
    }
  }

  lemma ShowsAfter(E: Curve, buckets: seq<BucketAffine>, points: seq<SchedulePoint>, ks: seq<int>, ls: seq<int>)
    requires Ready(points, ks, |ls|) && DistinctBuckets(points) && |buckets| == |ks|
    requires forall j :: 0 <= j < |points|
               ==> buckets[points[j].buck] == Show(E, AffineBatch.Result(E, points[j], ks, ls))
    requires forall b :: 0 <= b < |ks| && !Scheduled(points, b) ==> buckets[b] == Show(E, ks[b])
    requires forall b :: 0 <= b < |ks| ==> IsPoint(E, After(E, points, ks, ls)[b])
    ensures Shows(E, buckets, After(E, points, ks, ls))
  {
    hide After, AffineBatch.Result, Show;
    AfterAt(E, points, ks, ls);
    var a := After(E, points, ks, ls);
    forall b | 0 <= b < |ks| ensures buckets[b] == Show(E, a[b]) {
      if Scheduled(points, b) {
        var i :| 0 <= i < |points| && points[i].buck == b;
      }
    }
  }

  // ---------- one window ----------

  /** A bucket for the points that arrive while its affine bucket is scheduled. */
  datatype Jacobian = NoSum | Sum(pt: int)

  function SumVal(b: Jacobian): int {
    if b == NoSum then 0 else b.pt
  }

  function SumVals(bs: seq<Jacobian>): (v: seq<int>)
    ensures |v| == |bs|
  {
    seq(|bs|, i requires 0 <= i < |bs| => SumVal(bs[i]))
  }

  /** The weighted sum of the projective buckets, with the schedule's own. */
  ghost function Gathered(bs: seq<Jacobian>, total: int): int {
    Dot(Weights(|bs|), SumVals(bs)) + total
  }

  function AddSigned(b: Jacobian, k: int, sign: bool, r: Modulus): Jacobian {
    match b
    case NoSum => Sum(if sign then k else Mod(-k, r))
    case Sum(a) => Sum(Mod(if sign then a + k else a - k, r))
  }

  /** The sum of the two buckets with the same index. */
  function Join(E: Curve, j: Jacobian, a: BucketAffine): int {
    match (j, a)
    case (Sum(k), At(pt)) => Mod(k + E.Index(pt.x, pt.y), E.r)
    case (Sum(k), NoPoint) => k
    case (NoSum, At(pt)) => E.Index(pt.x, pt.y)
    case (NoSum, NoPoint) => 0
  }

  lemma AddSignedCong(b: Jacobian, k: int, sign: bool, t: int, r: Modulus)
    requires t == SumVal(b) + if sign then k else -k
    ensures Cong(SumVal(AddSigned(b, k, sign, r)), t, r)
  {
    hide Mod;
    ModCong(t, r);
  }

  lemma JacobianStep(bs: seq<Jacobian>, j: nat, k: int, sign: bool, t: int, r: Modulus)
    requires j < |bs| && t == Dot(Weights(|bs|), SumVals(bs)) + (j + 1) * (if sign then k else -k)
    ensures Cong(Dot(Weights(|bs|), SumVals(bs[j := AddSigned(bs[j], k, sign, r)])), t, r)
  {
    hide Mod, Dot, AddSigned, SumVal;
    var x, y := SumVal(AddSigned(bs[j], k, sign, r)), SumVal(bs[j]);
    var l := if sign then k else -k;
    assert SumVals(bs[j := AddSigned(bs[j], k, sign, r)]) == SumVals(bs)[j := x];
    DotUpdate(SumVals(bs), Weights(|bs|), j, x);
    AddSignedCong(bs[j], k, sign, y + l, r);
    CongSub(x, y + l, y, y, r);
    WeightedStep(Dot(Weights(|bs|), SumVals(bs)), x, y, j + 1, l, Dot(Weights(|bs|), SumVals(bs)[j := x]), t, r);
  }

  /** -l is another name for the negative of l. */
  lemma SignedCong(E: Curve, l: int, sign: bool)
    ensures Cong(Signed(E, l, sign), if sign then l else -l, E.r)
  {
    hide Mod;
    if !sign {
      ModShift(-l, E.r);
    }
  }

  /**
   The digit of one scalar goes into one of the two buckets, or waits in the schedule.  Digits 1 and -1
   never reach the schedule.
   */
  method Place(E: Curve, sched: Schedule, jBucks: array<Jacobian>, bases: seq<Affine>, points: seq<int>, base: nat,
               digit: int,
               ghost t: int)
    requires IsCurve(E) && sched.E == E && Based(E, bases, points) && sched.Valid(points) && base < |points|
    requires jBucks.Length == |sched.ks| && digit != 0 && -|sched.ks| <= digit <= |sched.ks|
    requires t == Gathered(jBucks[..], sched.Total(points)) + digit * points[base]
    modifies sched, sched.buckets, jBucks
    ensures sched.Valid(points) && |sched.ks| == old(|sched.ks|)
    ensures Cong(Gathered(jBucks[..], sched.Total(points)), t, E.r)
    ensures digit == 1 || digit == -1 ==> sched.entries == old(sched.entries) && sched.ptr == old(sched.ptr) &&
                                          sched.ks == old(sched.ks) && sched.buckets[..] == old(sched.buckets[..])
    ensures old(sched.ZeroIdle()) ==> sched.ZeroIdle()
  {
    hide Mod, Dot, IsCurve, Weights, SumVals, Signed, AddSigned;
    var sign := digit > 0;
    var buck := (if sign then digit else -digit) - 1;
    ghost var l := if sign then points[base] else -points[base];
    ghost var d, total := Dot(Weights(jBucks.Length), SumVals(jBucks[..])), sched.Total(points);
    DigitTimes(digit, points[base], buck, sign);
    BucketZeroLooksScheduled(sched, points);
    var busy := sched.Contains(buck);
    if busy {
      ghost var bs := jBucks[..];
      jBucks[buck] := AddSigned(jBucks[buck], points[base], sign, E.r);
      JacobianStep(bs, buck, points[base], sign, d + (buck + 1) * l, E.r);
      assert jBucks[..] == bs[buck := AddSigned(bs[buck], points[base], sign, E.r)];
      CongSum(Gathered(jBucks[..], total), t,
              Dot(Weights(jBucks.Length), SumVals(jBucks[..])), d + (buck + 1) * l, total, total, E.r);
    } else {
      NotPending(sched.entries, sched.ptr, buck);
      sched.Add(bases, base, buck, sign, points);
      SignedCong(E, points[base], sign);
      CongScale(buck + 1, Signed(E, points[base], sign), l, E.r);
      CongSum(total + (buck + 1) * Signed(E, points[base], sign), total + (buck + 1) * l,
              total, total, (buck + 1) * Signed(E, points[base], sign), (buck + 1) * l, E.r);
      CongSum(Gathered(jBucks[..], sched.Total(points)), t, d, d, sched.Total(points), total + (buck + 1) * l, E.r);
    }
  }

  lemma DigitTimes(digit: int, k: int, buck: int, sign: bool)
    requires sign == (digit > 0) && buck == (if sign then digit else -digit) - 1
    ensures digit * k == (buck + 1) * (if sign then k else -k)
  {
  }

  lemma NotPending(entries: seq<SchedulePoint>, ptr: nat, b: nat)
    requires ptr <= |entries| && !exists i :: 0 <= i < |entries| && entries[i].buck == b
    ensures !Scheduled(entries[..ptr], b)
  {
  }

  /** All digits of one window, accumulated into weighted buckets and summed by parts. */
  method ScheduledWindow(E: Curve, coeffs: seq<Bytes>, bases: seq<Affine>, points: seq<int>, c: nat, w: nat)
    returns (acc: int)
    requires IsCurve(E) && Based(E, bases, points) && |coeffs| == |points| && 1 <= c <= 30
    ensures Cong(acc, Dot(Digits(coeffs, c, w), points), E.r) && Canonical(acc, E.r)
  {
    hide Mod, Dot, IsCurve, BoothIndex, Weights, SumVals, Gathered;
    var jBucks := new Jacobian[Pow2(c - 1)](_ => NoSum);
    var sched := new Schedule(E, c, points);
    EmptySums(jBucks[..]);
    for i := 0 to |coeffs|
      invariant sched.Valid(points) && sched.E == E && fresh(sched) && fresh(sched.buckets)
      invariant |sched.ks| == jBucks.Length == Pow2(c - 1) && sched.ZeroIdle()
      invariant Cong(Gathered(jBucks[..], sched.Total(points)), Dot(Digits(coeffs[..i], c, w), points[..i]), E.r)
    {
      var digit := BoothIndex(w, c, coeffs[i]);
      DigitRange(w, c, coeffs[i]);
      DigitsSnoc(coeffs, points, c, w, i);
      ghost var before, d := Gathered(jBucks[..], sched.Total(points)), Dot(Digits(coeffs[..i], c, w), points[..i]);
      ghost var t, d' := before + digit * points[i], Dot(Digits(coeffs[..i + 1], c, w), points[..i + 1]);
      CongSum(t, d', before, d, digit * points[i], digit * points[i], E.r);
      if digit != 0 {
        Place(E, sched, jBucks, bases, points, i, digit, t);
      } else {
        assert t == before;
      }
    }
    assert coeffs[..|coeffs|] == coeffs && points[..|points|] == points;
    acc := Flush(E, sched, jBucks[..], bases, points);
  }

  /** The schedule is flushed and all buckets are summed by parts. */
  method Flush(E: Curve, sched: Schedule, js: seq<Jacobian>, bases: seq<Affine>, ghost points: seq<int>)
    returns (acc: int)
    requires IsCurve(E) && sched.E == E && Based(E, bases, points) && sched.Valid(points) && |js| == |sched.ks|
    modifies sched, sched.buckets
    ensures Cong(acc, old(Gathered(js, sched.Total(points))), E.r) && Canonical(acc, E.r)
  {
    hide Mod, Dot, IsCurve, Weights, SumVals;
    ghost var total, d := sched.Total(points), Dot(Weights(|js|), SumVals(js));
    sched.Execute(bases, points);
    NoPending(E, sched.entries, points);
    CongSum(d + sched.Total(points), Gathered(js, total), d, d, sched.Total(points), total, E.r);
    acc := JoinByParts(E, js, sched.buckets[..], sched.ks, d + sched.Total(points));
  }

  lemma NoPending(E: Curve, entries: seq<SchedulePoint>, ls: seq<int>)
    ensures Pending(E, entries[..0], ls) == 0
  {
  }

  lemma EmptySums(bs: seq<Jacobian>)
    requires forall i :: 0 <= i < |bs| ==> bs[i] == NoSum
    ensures Gathered(bs, 0) == 0 && Dot([], []) == 0
  {
    assert SumVals(bs) == Const(|bs|, 0);
    DotZero(|bs|, Weights(|bs|));
  }

  /** Summation by parts over the joined buckets. */
  method JoinByParts(E: Curve, js: seq<Jacobian>, buckets: seq<BucketAffine>, ghost ks: seq<int>, ghost t: int)
    returns (acc: int)
    requires IsCurve(E) && Shows(E, buckets, ks) && |js| == |ks|
    requires t == Dot(Weights(|js|), SumVals(js)) + Dot(Weights(|ks|), ks)
    ensures Cong(acc, t, E.r) && Canonical(acc, E.r)
  {
    hide Mod, Dot, Vectors.Sum, IsCurve, Join, Weights, SumVals;
    ghost var v := Lin(1, SumVals(js), 1, ks);
    var running := 0;
    acc := 0;
    var j := |js|;
    SuffixEmpty(v);
    while j > 0
      invariant 0 <= j <= |js| && Canonical(acc, E.r)
      invariant Cong(running, Vectors.Sum(v[j..]), E.r)
      invariant Cong(acc, 0 + Dot(Weights(|v| - j), v[j..]), E.r)
    {
      j := j - 1;
      ghost var before, running0 := acc, running;
      running := Mod(running + Join(E, js[j], buckets[j]), E.r);
      acc := Mod(acc + running, E.r);
      JoinCong(E, js, ks, j, running0, E.r);
      PartsStep(v, j, running0, running, before, acc, 0, E.r);
    }
    assert v[0..] == v;
    DotLin(1, SumVals(js), 1, ks, Weights(|js|));
  }

  lemma JoinCong(E: Curve, js: seq<Jacobian>, ks: seq<int>, j: nat, running: int, r: Modulus)
    requires IsCurve(E) && r == E.r && j < |js| == |ks| && IsPoint(E, ks[j])
    ensures Cong(Mod(running + Join(E, js[j], Show(E, ks[j])), r), running + Lin(1, SumVals(js), 1, ks)[j], r)
  {
    hide Mod, IsCurve;
    if ks[j] != 0 {
      Coordinates(E, ks[j]);
    }
    var x := Join(E, js[j], Show(E, ks[j]));
    ModCong(running + x, r);
    ModCong(SumVal(js[j]) + ks[j], r);
    CongSum(running + x, running + Lin(1, SumVals(js), 1, ks)[j], running, running, x, SumVal(js[j]) + ks[j], r);
  }

  // ---------- all windows ----------

  lemma WindowAdds(coeffs: seq<Bytes>, points: seq<int>, c: nat, w: nat)
    requires 1 <= c <= 30 && |coeffs| == |points|
    ensures Dot(RecodedAll(coeffs, c, w + 1), points)
         == Dot(RecodedAll(coeffs, c, w), points) + Pow2(c * w) * Dot(Digits(coeffs, c, w), points)
  {
    hide Dot, BoothIndex, Pow2;
    assert c * w == w * c;
    var a, d := RecodedAll(coeffs, c, w), Digits(coeffs, c, w);
    forall i | 0 <= i < |coeffs| ensures RecodedAll(coeffs, c, w + 1)[i] == Lin(1, a, Pow2(c * w), d)[i] {
      assert d[i] * Pow2(w * c) == Pow2(c * w) * d[i];
    }
    assert RecodedAll(coeffs, c, w + 1) == Lin(1, a, Pow2(c * w), d);
    DotLin(1, a, Pow2(c * w), d, points);
  }

  lemma NoWindows(coeffs: seq<Bytes>, points: seq<int>, c: nat)
    requires 1 <= c <= 30 && |coeffs| == |points|
    ensures Dot(RecodedAll(coeffs, c, 0), points) == 0
  {
    assert RecodedAll(coeffs, c, 0) == Const(|coeffs|, 0);
    DotZero(|coeffs|, points);
  }

  function ScheduledWindows(numBits: nat, c: nat): nat
    requires c > 0
  {
    numBits / c + 1
  }

  lemma ScheduledCover(numBits: nat, c: nat)
    requires c > 0
    ensures ScheduledWindows(numBits, c) * c > numBits
  {
    var q := numBits / c;
    assert (q + 1) * c == q * c + c;
  }

  /** What the windows of the scalars add up to, times the points. */
  function RecodedProduct(E: Curve, coeffs: seq<Bytes>, points: seq<int>, numBits: nat, c: nat): int
    requires 1 <= c <= 30 && |coeffs| == |points|
  {
    Mod(Dot(RecodedAll(coeffs, c, ScheduledWindows(numBits, c)), points), E.r)
  }

  /** The sum that a multi-scalar multiplication is for. */
  function NaiveProduct(E: Curve, coeffs: seq<Bytes>, points: seq<int>): int
    requires |coeffs| == |points|
  {
    Mod(Dot(Values(coeffs), points), E.r)
  }

  lemma NarrowProduct(E: Curve, coeffs: seq<Bytes>, points: seq<int>, numBits: nat, c: nat)
    requires 1 <= c <= 24 && |coeffs| == |points|
    requires forall i :: 0 <= i < |coeffs| ==> Value(coeffs[i]) < Pow2(numBits)
    ensures RecodedProduct(E, coeffs, points, numBits, c) == NaiveProduct(E, coeffs, points)
  {
    hide Mod, Dot, Value, Pow2, RecodedAll, Values;
    var n := ScheduledWindows(numBits, c);
    ScheduledCover(numBits, c);
    forall i | 0 <= i < |coeffs| ensures Value(coeffs[i]) < Pow2(n * c - 1) {
      Pow2Monotone(numBits, n * c - 1);
    }
    AllWindows(coeffs, c, n);
  }

  /** Each window in its own accumulator, shifted into position, then all added. */
  method MsmScheduledInner(E: Curve, coeffs: seq<Bytes>, points: seq<int>, numBits: nat, c: nat) returns (sum: int)
    requires IsCurve(E) && |coeffs| == |points| && 1 <= c <= 30
    requires forall i :: 0 <= i < |points| ==> Finite(E, points[i])
    ensures sum == RecodedProduct(E, coeffs, points, numBits, c)
  {
    hide Mod, Dot, IsCurve, BoothIndex, Pow2, RecodedAll;
    var bases := seq(|points|, i requires 0 <= i < |points| => Coords(E, points[i]));
    var n := ScheduledWindows(numBits, c);
    sum := 0;
    NoWindows(coeffs, points, c);
    for w := 0 to n
      invariant Canonical(sum, E.r) && Cong(sum, Dot(RecodedAll(coeffs, c, w), points), E.r)
    {
      var acc := ScheduledWindow(E, coeffs, bases, points, c, w);
      var shifted := DoubleTimes(acc, c * w, E.r);
      ghost var before := sum;
      sum := Mod(sum + shifted, E.r);
      WindowAdds(coeffs, points, c, w);
      AddWindow(before, shifted, acc, Pow2(c * w), Dot(Digits(coeffs, c, w), points),
                Dot(RecodedAll(coeffs, c, w), points),
                Dot(RecodedAll(coeffs, c, w + 1), points), E.r);
    }
    CanonicalMod(sum, Dot(RecodedAll(coeffs, c, n), points), E.r);
  }

  lemma AddWindow(sum: int, shifted: int, acc: int, t: int, d: int, before: int, after: int, r: Modulus)
    requires Cong(sum, before, r) && Cong(shifted, t * acc, r) && Cong(acc, d, r) && after == before + t * d
    ensures Cong(Mod(sum + shifted, r), after, r)
  {
    hide Mod;
    CongScale(t, acc, d, r);
    CongSum(sum + shifted, after, sum, before, shifted, t * d, r);
    ModCong(sum + shifted, r);
  }

  /** Drop the identity bases together with their scalars. */
  function DropIdentity(coeffs: seq<Bytes>, points: seq<int>): (r: (seq<Bytes>, seq<int>))
    requires |coeffs| == |points|
    ensures |r.0| == |r.1|
  {
    if |coeffs| == 0 then ([], []) else
    var n := |coeffs| - 1;
    var rest := DropIdentity(coeffs[..n], points[..n]);
    if points[n] == 0 then rest else (rest.0 + [coeffs[n]], rest.1 + [points[n]])
  }

  lemma {:induction false} DropIdentityKeeps(E: Curve, coeffs: seq<Bytes>, points: seq<int>, c: nat, n: nat)
    requires 1 <= c <= 30 && |coeffs| == |points|
    requires forall i :: 0 <= i < |points| ==> IsPoint(E, points[i])
    ensures var (cs, ps) := DropIdentity(coeffs, points);
      Dot(RecodedAll(cs, c, n), ps) == Dot(RecodedAll(coeffs, c, n), points) &&
      forall i :: 0 <= i < |ps| ==> Finite(E, ps[i])
  {
    hide Dot, Recoded;
    if |coeffs| == 0 {
      assert coeffs == [] && points == [];
    } else {
      var m := |coeffs| - 1;
      var (cs, ps) := DropIdentity(coeffs[..m], points[..m]);
      DropIdentityKeeps(E, coeffs[..m], points[..m], c, n);
      var v := Recoded(coeffs[m], c, n);
      assert RecodedAll(coeffs, c, n) == RecodedAll(coeffs[..m], c, n) + [v] && points == points[..m] + [points[m]];
      DotSnoc(RecodedAll(coeffs[..m], c, n), points[..m], v, points[m]);
      assert RecodedAll(cs + [coeffs[m]], c, n) == RecodedAll(cs, c, n) + [v];
      DotSnoc(RecodedAll(cs, c, n), ps, v, points[m]);
    }
  }

  /** Any window size that 32-bit words admit; the result is the naive sum up to width 24. */
  method MsmScheduledWithC(E: Curve, coeffs: seq<Bytes>, points: seq<int>, numBits: nat, c: nat) returns (sum: int)
    requires IsCurve(E) && |coeffs| == |points| && 1 <= c <= 30
    requires forall i :: 0 <= i < |points| ==> IsPoint(E, points[i])
    ensures sum == RecodedProduct(E, coeffs, points, numBits, c)
    ensures c <= 24 && (forall i :: 0 <= i < |coeffs| ==> Value(coeffs[i]) < Pow2(numBits))
      ==> sum == NaiveProduct(E, coeffs, points)
  {
    hide Mod, Dot, IsCurve, Value, Pow2, Values, DropIdentity, NaiveProduct, RecodedAll;
    if exists i :: 0 <= i < |points| && points[i] == 0 {
      DropIdentityKeeps(E, coeffs, points, c, ScheduledWindows(numBits, c));
      var kept := DropIdentity(coeffs, points);
      sum := MsmScheduledInner(E, kept.0, kept.1, numBits, c);
    } else {
      sum := MsmScheduledInner(E, coeffs, points, numBits, c);
    }
    if c <= 24 && forall i :: 0 <= i < |coeffs| ==> Value(coeffs[i]) < Pow2(numBits) {
      NarrowProduct(E, coeffs, points, numBits, c);
    }
  }

  // ---------- wider windows ----------

  /** At width c the scheduled product is the naive sum for all scalars of numBits bits and all points. */
  ghost predicate ProductExact(E: Curve, numBits: nat, c: nat)
    requires 1 <= c <= 30
  {
    forall coeffs: seq<Bytes>, points: seq<int> {:trigger RecodedProduct(E, coeffs, points, numBits, c)} ::
      |coeffs| == |points| && (forall i :: 0 <= i < |points| ==> IsPoint(E, points[i])) &&
      (forall i :: 0 <= i < |coeffs| ==> |coeffs[i]| == 32 && Value(coeffs[i]) < Pow2(numBits))
      ==> RecodedProduct(E, coeffs, points, numBits, c) == NaiveProduct(E, coeffs, points)
  }

  /** On any curve, the widths for which the product is right are those of at most 24 bits. */
  lemma ProductWidths(E: Curve, numBits: nat, c: nat)
    requires IsCurve(E) && 1 <= c <= 30 && numBits >= 225
    ensures ProductExact(E, numBits, c) <==> c <= 24
  {
    hide Mod, Dot, IsCurve, Value, Pow2, RecodedProduct, NaiveProduct;
    if c <= 24 {
      forall coeffs: seq<Bytes>, points: seq<int> | |coeffs| == |points| &&
             forall i :: 0 <= i < |coeffs| ==> |coeffs[i]| == 32 && Value(coeffs[i]) < Pow2(numBits)
        ensures RecodedProduct(E, coeffs, points, numBits, c) == NaiveProduct(E, coeffs, points)
      {
        NarrowProduct(E, coeffs, points, numBits, c);
      }
    } else {
      WideProduct(E, numBits, c, 1);
    }
  }

  /** One finite point k and the scalar 2^(w c - 1): the product comes out as 2^(w c) k. */
  lemma WideProduct(E: Curve, numBits: nat, c: nat, k: int)
    requires IsCurve(E) && 25 <= c <= 30 && numBits >= 225 && Finite(E, k)
    ensures var v := Pow2(CarryWindow(c) * c - 1);
      Value(WideScalar(c, 32)) == v < Pow2(numBits) &&
      RecodedProduct(E, [WideScalar(c, 32)], [k], numBits, c) == Mod(2 * v * k, E.r) &&
      NaiveProduct(E, [WideScalar(c, 32)], [k]) == Mod(v * k, E.r) != Mod(2 * v * k, E.r)
  {
    hide Mod, IsCurve, Value, Pow2, WideScalar, Recoded;
    var el, n := WideScalar(c, 32), ScheduledWindows(numBits, c);
    var v := Pow2(CarryWindow(c) * c - 1);
    CoversCarry(numBits, c);
    WideRecoded(c, 32, n);
    CarryFits(c);
    Pow2Monotone(CarryWindow(c) * c, numBits);
    Pow2Next(CarryWindow(c) * c - 1);
    assert RecodedAll([el], c, n) == [2 * v] && Values([el]) == [v];
    DotOne(2 * v, k);
    DotOne(v, k);
    DoubleDiffers(E, CarryWindow(c) * c - 1, k);
  }

  lemma CarryFits(c: nat)
    requires 25 <= c <= 30
    ensures 1 <= CarryWindow(c) * c <= 225
  {
  }

  lemma CoversCarry(numBits: nat, c: nat)
    requires 25 <= c <= 30 && numBits >= 225
    ensures ScheduledWindows(numBits, c) > CarryWindow(c)
  {
    CarryFits(c);
  }

  lemma DotOne(v: int, k: int)
    ensures Dot([v], [k]) == v * k
  {
    assert [v][..0] == [] && [k][..0] == [];
  }

  /** In a group of odd order 2^j k is not 2^(j+1) k, because no power of two kills a finite point. */
  lemma DoubleDiffers(E: Curve, j: nat, k: int)
    requires IsCurve(E) && Finite(E, k)
    ensures Mod(Pow2(j) * k, E.r) != Mod(2 * Pow2(j) * k, E.r)
  {
    hide Mod, IsCurve;
    var x := Pow2(j) * k;
    CurveField(E);
    PowerFinite(E, j, k);
    assert 2 * Pow2(j) * k == x + x;
    if Cong(x, x + x, E.r) {
      CongSub(x + x, x, x, x, E.r);
      SmallMod(0, E.r);
    }
  }

  lemma {:induction false} PowerFinite(E: Curve, j: nat, k: int)
    requires E.r % 2 == 1 && Finite(E, k)
    ensures Mod(Pow2(j) * k, E.r) != 0
  {
    if j == 0 {
      SmallMod(k, E.r);
    } else {
      PowerFinite(E, j - 1, k);
      SmallMod(0, E.r);
      hide Mod;
      assert Pow2(j) * k == 2 * (Pow2(j - 1) * k);
      if Mod(2 * (Pow2(j - 1) * k), E.r) == 0 {
        OddHalves(Pow2(j - 1) * k, E.r);
      }
    }
  }

  lemma OddHalves(x: int, r: Modulus)
    requires r % 2 == 1 && Cong(2 * x, 0, r)
    ensures Cong(x, 0, r)
  {
    hide Mod;
    var q := CongElim(2 * x, 0, r);
    HalfQuotient(x, q, r);
    CongIntro(x, 0, q / 2, r);
  }

  lemma HalfQuotient(x: int, q: int, r: int)
    requires r % 2 == 1 && 2 * x == q * r
    ensures x == (q / 2) * r
  {
    var h := r / 2;
    assert q * r == 2 * (q * h) + q;
    assert q == 2 * (x - q * h) && q / 2 == x - q * h;
    assert 2 * ((q / 2) * r) == q * r;
  }

  /** The dispatcher: tiny inputs go to the chunked routine, all others to the scheduled one. */
  method MsmBest(E: Curve, coeffs: seq<Bytes>, points: seq<int>, size: nat, numBits: nat, threads: nat,
                 lnCeil: nat -> nat)
    returns (sum: int)
    requires IsCurve(E) && |coeffs| == |points| < WORD && LogRange(lnCeil) && threads > 0
    requires forall i :: 0 <= i < |points| ==> IsPoint(E, points[i])
    requires forall i :: 0 <= i < |coeffs| ==> |coeffs[i]| == size && Value(coeffs[i]) < Pow2(numBits)
    ensures sum == Mod(Dot(Values(coeffs), points), E.r)
  {
    hide Mod, Dot, IsCurve, Value, Pow2, Values;
    if |points| < 32 {
      sum := MsmParallel(coeffs, points, size, threads, lnCeil, E.r);
    } else {
      var c := PippengerC(|points|, lnCeil);
      sum := MsmScheduledWithC(E, coeffs, points, numBits, if c > 8 then c else 8);
    }
  }
}
