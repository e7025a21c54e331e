/** Tables over bit strings: folding a table in half and the product table that undoes it. */
module Tensor {
  import opened PowersOfTwo
  import opened PrimeField
  import opened Vectors

  /** Both halves of v, combined as x * left + y * right. */
  function Fold(v: seq<int>, x: int, y: int, p: Modulus): (f: seq<int>)
    requires |v| % 2 == 0
    ensures |f| == |v| / 2
  {
    ModV(Lin(x, v[..|v| / 2], y, v[|v| / 2..]), p)
  }

  /** The table over all bit strings: entry i takes u_j for bit 1 and w_j for bit 0, most significant bit first. */
  function Spread(us: seq<int>, ws: seq<int>, p: Modulus): (s: seq<int>)
    requires |us| == |ws|
    ensures |s| == Pow2(|us|)
  {
    if |us| == 0 then [1]
    else
      var t := Spread(us[1..], ws[1..], p);
      ModV(Scale(ws[0], t), p) + ModV(Scale(us[0], t), p)
  }

  /** The product over the bits of i of u_j where bit j is set and of w_j elsewhere. */
  function BitProduct(us: seq<int>, ws: seq<int>, i: nat): int
    requires |us| == |ws|
  {
    if |us| == 0 then 1 else
    var k := |us| - 1;
    (if i % 2 == 1 then us[k] else ws[k]) * BitProduct(us[..k], ws[..k], i / 2)
  }

  lemma {:induction false} BitProductTop(us: seq<int>, ws: seq<int>, i: nat)
    requires |us| == |ws| > 0 && i < Pow2(|us|)
    ensures var half := Pow2(|us| - 1);
      BitProduct(us, ws, i) ==
        if i < half then ws[0] * BitProduct(us[1..], ws[1..], i)
        else us[0] * BitProduct(us[1..], ws[1..], i - half)
  {
    var k := |us| - 1;
    if k == 0 {
      assert us[..0] == [] && us[1..] == [];
    } else {
      BitProductTop(us[..k], ws[..k], i / 2);
      assert us[..k][1..] == us[1..][..k - 1] && ws[..k][1..] == ws[1..][..k - 1];
      var x := if i % 2 == 1 then us[k] else ws[k];
      var half := Pow2(k);
      assert half == 2 * Pow2(k - 1);
      if i < half {
        Reorder(x, ws[0], BitProduct(us[1..][..k - 1], ws[1..][..k - 1], i / 2));
      } else {
        assert (i - half) / 2 == i / 2 - Pow2(k - 1) && (i - half) % 2 == i % 2;
        Reorder(x, us[0], BitProduct(us[1..][..k - 1], ws[1..][..k - 1], (i - half) / 2));
      }
    }
  }

  lemma Reorder(x: int, y: int, z: int)
    ensures x * (y * z) == y * (x * z)
  {
  }

  /** Closed form of the table's entries. */
  lemma {:induction false} SpreadBits(us: seq<int>, ws: seq<int>, i: nat, p: Modulus)
    requires |us| == |ws| && i < Pow2(|us|)
    ensures Cong(Spread(us, ws, p)[i], BitProduct(us, ws, i), p)
  {
    hide Mod, BitProduct;
    if |us| == 0 {
      BitsBase(p);
    } else {
      var half := Pow2(|us| - 1);
      BitProductTop(us, ws, i);
      var t := Spread(us[1..], ws[1..], p);
      var j := if i < half then i else i - half;
      SpreadBits(us[1..], ws[1..], j, p);
      var x := if i < half then ws[0] else us[0];
      assert Spread(us, ws, p)[i] == Mod(x * t[j], p);
      ModCong(x * t[j], p);
      CongScale(x, t[j], BitProduct(us[1..], ws[1..], j), p);
    }
  }

  lemma BitsBase(p: Modulus)
    ensures BitProduct([], [], 0) == 1 && Spread([], [], p) == [1]
  {
  }

  /** Folding a table moves to the shorter product table. */
  lemma SpreadStep(t: seq<int>, g: seq<int>, u: int, w: int, p: Modulus)
    requires |g| == 2 * |t|
    ensures Cong(Dot(ModV(Scale(w, t), p) + ModV(Scale(u, t), p), g), Dot(t, Fold(g, w, u, p)), p)
  {
    hide Dot, Mod;
    var n := |t|;
    var gL, gR := g[..n], g[n..];
    assert g == gL + gR;
    DotConcat(ModV(Scale(w, t), p), gL, ModV(Scale(u, t), p), gR);
    DotModV(Scale(w, t), gL, p);
    DotModV(Scale(u, t), gR, p);
    DotScale(w, t, gL);
    DotScale(u, t, gR);
    DotLin(w, gL, u, gR, t);
    DotModV(t, Lin(w, gL, u, gR), p);
    CongAdd(Dot(ModV(Scale(w, t), p), gL), w * Dot(t, gL), Dot(ModV(Scale(u, t), p), gR), u * Dot(t, gR), p);
  }
}
