/** Symbolic bases: each base is a list of terms whose multi-scalar product it stands for. */
module IpaBases {
  import opened PrimeField
  import opened Vectors

  /** What a list of symbolic bases stands for. */
  function Denote(scalars: seq<seq<int>>, bases: seq<seq<int>>, p: Modulus): (d: seq<int>)
    requires |scalars| == |bases|
    requires forall i :: 0 <= i < |bases| ==> |scalars[i]| == |bases[i]|
    ensures |d| == |bases|
  {
    seq(|bases|, i requires 0 <= i < |bases| => Mod(Dot(scalars[i], bases[i]), p))
  }

  /** Every base holds exactly t terms. */
  predicate Width(scalars: seq<seq<int>>, t: nat) {
    forall i :: 0 <= i < |scalars| ==> |scalars[i]| == t
  }

  /** All terms of all bases, in order. */
  function Flat(rows: seq<seq<int>>): seq<int> {
    if |rows| == 0 then [] else Flat(rows[..|rows| - 1]) + rows[|rows| - 1]
  }

  /** The terms' scalars, those of base i multiplied by values[i]. */
  function FlatScaled(values: seq<int>, scalars: seq<seq<int>>, p: Modulus): seq<int>
    requires |values| == |scalars|
  {
    if |scalars| == 0 then [] else
    var n := |scalars| - 1;
    FlatScaled(values[..n], scalars[..n], p) + ModV(Scale(values[n], scalars[n]), p)
  }

  class IPABases {
    var bases: seq<seq<int>>
    var scalars: seq<seq<int>>

    predicate Valid()
      reads this
    {
      |bases| == |scalars| && forall i :: 0 <= i < |bases| ==> |scalars[i]| == |bases[i]|
    }

    function Value(p: Modulus): seq<int>
      reads this
      requires Valid()
    {
      Denote(scalars, bases, p)
    }

    constructor ()
      ensures bases == [] && scalars == []
    {
      bases, scalars := [], [];
    }

    constructor FromTerms(scalars: seq<seq<int>>, bases: seq<seq<int>>)
      ensures this.bases == bases && this.scalars == scalars
    {
      this.bases, this.scalars := bases, scalars;
    }

    method DeferInit(s: seq<int>, b: seq<int>)
      requires Valid() && |s| == |b|
      modifies this
      ensures Valid()
      ensures bases == old(bases) + [b] && scalars == old(scalars) + [s]
    {
      scalars := scalars + [s];
      bases := bases + [b];
    }

    /** Replaces base i by x * base i + y * right base i, without computing it. */
    method Defer(i: nat, right: IPABases, x: int, y: int, p: Modulus)
      requires Valid() && right.Valid() && right != this
      requires i < |bases| && i < |right.bases|
      modifies this
      ensures Valid()
      ensures bases == old(bases)[i := old(bases)[i] + right.bases[i]]
      ensures scalars == old(scalars)[i := ModV(Scale(x, old(scalars)[i]), p) + ModV(Scale(y, right.scalars[i]), p)]
    {
      var s, b := scalars[i], bases[i];
      ghost var left := s;
      var k := 0;
      while k < |s|
        invariant 0 <= k <= |left| == |s|
        invariant forall j :: 0 <= j < k ==> s[j] == ModV(Scale(x, left), p)[j]
        invariant forall j :: k <= j < |left| ==> s[j] == left[j]
      {
        s := s[k := Mod(x * s[k], p)];
        k := k + 1;
      }
      assert s == ModV(Scale(x, left), p);
      k := 0;
      while k < |right.bases[i]|
        invariant 0 <= k <= |right.bases[i]|
        invariant s == ModV(Scale(x, left), p) + ModV(Scale(y, right.scalars[i]), p)[..k]
        invariant b == bases[i] + right.bases[i][..k]
      {
        s := s + [Mod(y * right.scalars[i][k], p)];
        b := b + [right.bases[i][k]];
        k := k + 1;
      }
      assert s == ModV(Scale(x, left), p) + ModV(Scale(y, right.scalars[i]), p);
      assert b == bases[i] + right.bases[i];
      scalars, bases := scalars[i := s], bases[i := b];
    }

    method SplitAt(n: nat) returns (left: IPABases, right: IPABases)
      requires Valid() && n <= |bases|
      ensures fresh(left) && fresh(right) && left != right && left.Valid() && right.Valid()
      ensures left.bases == bases[..n] && left.scalars == scalars[..n]
      ensures right.bases == bases[n..] && right.scalars == scalars[n..]
    {
      right := new IPABases.FromTerms(scalars[n..], bases[n..]);
      left := new IPABases.FromTerms(scalars[..n], bases[..n]);
    }

    /** The terms of the inner product of `values` with the bases. */
    method Get(values: seq<int>, p: Modulus) returns (s: seq<int>, b: seq<int>)
      requires Valid() && |values| == |bases|
      ensures s == FlatScaled(values, scalars, p) && b == Flat(bases)
    {
      hide Mod;
      s, b := [], [];
      var i := 0;
      while i < |values|
        invariant 0 <= i <= |values|
        invariant s == FlatScaled(values[..i], scalars[..i], p) && b == Flat(bases[..i])
      {
        var j := 0;
        ghost var s0, b0 := s, b;
        while j < |scalars[i]|
          invariant 0 <= j <= |scalars[i]|
          invariant b == b0 + bases[i][..j] && s == s0 + ModV(Scale(values[i], scalars[i]), p)[..j]
        {
          s := s + [Mod(values[i] * scalars[i][j], p)];
          b := b + [bases[i][j]];
          j := j + 1;
        }
        assert b == b0 + bases[i] && s == s0 + ModV(Scale(values[i], scalars[i]), p);
        assert scalars[..i + 1][..i] == scalars[..i] && bases[..i + 1][..i] == bases[..i];
        assert values[..i + 1][..i] == values[..i];
        i := i + 1;
      }
      assert scalars[..i] == scalars && values[..i] == values && bases[..i] == bases;
    }

    /** Materialises every base as a single term. */
    method Collapse(p: Modulus)
      requires Valid()
      modifies this
      ensures Valid() && Width(scalars, 1)
      ensures Value(p) == old(Value(p))
    {
      ghost var value := Value(p);
      var points: seq<int> := [];
      var i := 0;
      while i < |bases|
        invariant 0 <= i <= |bases| && points == value[..i]
      {
        points := points + [Mod(Dot(scalars[i], bases[i]), p)];
        i := i + 1;
      }
      i := 0;
      while i < |points|
        invariant 0 <= i <= |points| == |value| == |bases| && Valid() && points == value
        invariant forall j :: 0 <= j < i ==> bases[j] == [value[j]] && scalars[j] == [1]
      {
        bases := bases[i := [points[i]]];
        scalars := scalars[i := [1]];
        i := i + 1;
      }
      forall j | 0 <= j < |value| ensures Mod(Dot([1], [value[j]]), p) == value[j] {
        DotSingle(1, value[j]);
      }
      assert Value(p) == value;
    }
  }

  /** Scaling the terms of a base scales what it stands for. */
  lemma ScaledTerms(x: int, s: seq<int>, b: seq<int>, p: Modulus)
    requires |s| == |b|
    ensures Cong(Dot(ModV(Scale(x, s), p), b), x * Mod(Dot(s, b), p), p)
  {
    hide Dot;
    DotModV(Scale(x, s), b, p);
    DotScale(x, s, b);
    CongScale(x, Dot(s, b), Mod(Dot(s, b), p), p);
  }

  /** What `Get` returns multiplies out to the inner product of the values with the bases. */
  lemma {:induction false} GetDenotes(values: seq<int>, scalars: seq<seq<int>>, bases: seq<seq<int>>, p: Modulus)
    requires |values| == |scalars| == |bases|
    requires forall i :: 0 <= i < |bases| ==> |scalars[i]| == |bases[i]|
    ensures |FlatScaled(values, scalars, p)| == |Flat(bases)|
    ensures Cong(Dot(FlatScaled(values, scalars, p), Flat(bases)), Dot(values, Denote(scalars, bases, p)), p)
  {
    if |bases| == 0 {
    } else {
      hide Dot, Mod;
      var n := |bases| - 1;
      GetDenotes(values[..n], scalars[..n], bases[..n], p);
      var d := Denote(scalars[..n], bases[..n], p);
      assert Denote(scalars, bases, p)[..n] == d;
      GetStep(FlatScaled(values[..n], scalars[..n], p), Flat(bases[..n]), values[..n], d, values[n], scalars[n],
              bases[n], p);
      assert values[..n] + [values[n]] == values && d + [Denote(scalars, bases, p)[n]] == Denote(scalars, bases, p);
    }
  }

  lemma GetStep(s: seq<int>, b: seq<int>, v: seq<int>, d: seq<int>, x: int, sc: seq<int>, ba: seq<int>, p: Modulus)
    requires |s| == |b| && |sc| == |ba| && |v| == |d|
    requires Cong(Dot(s, b), Dot(v, d), p)
    ensures Cong(Dot(s + ModV(Scale(x, sc), p), b + ba), Dot(v + [x], d + [Mod(Dot(sc, ba), p)]), p)
  {
    hide Dot, Mod;
    var t, y := ModV(Scale(x, sc), p), Mod(Dot(sc, ba), p);
    ScaledTerms(x, sc, ba, p);
    DotConcat(s, b, t, ba);
    DotSnoc(v, d, x, y);
    CongSum(Dot(s + t, b + ba), Dot(v + [x], d + [y]), Dot(s, b), Dot(v, d), Dot(t, ba), x * y, p);
  }

  /** With t terms in each of the n bases the product has n * t terms. */
  lemma {:induction false} FlatSize(rows: seq<seq<int>>, t: nat)
    requires Width(rows, t)
    ensures |Flat(rows)| == |rows| * t
  {
    if |rows| == 0 {
    } else {
      FlatSize(rows[..|rows| - 1], t);
    }
  }

  /** A deferred base stands for the combination of what its two parts stand for. */
  lemma DeferDenotes(x: int, s: seq<int>, b: seq<int>, y: int, s': seq<int>, b': seq<int>, p: Modulus)
    requires |s| == |b| && |s'| == |b'|
    ensures Mod(Dot(ModV(Scale(x, s), p) + ModV(Scale(y, s'), p), b + b'), p)
         == Mod(x * Mod(Dot(s, b), p) + y * Mod(Dot(s', b'), p), p)
  {
    hide Dot;
    var t, t' := ModV(Scale(x, s), p), ModV(Scale(y, s'), p);
    DotConcat(t, b, t', b');
    ScaledTerms(x, s, b, p);
    ScaledTerms(y, s', b', p);
    CongAdd(Dot(t, b), x * Mod(Dot(s, b), p), Dot(t', b'), y * Mod(Dot(s', b'), p), p);
  }
}
