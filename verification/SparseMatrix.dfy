/** Sparse matrices as lists of (row, column, value), and powers of a challenge. */
module SparseMatrix {
  import opened PrimeField
  import opened Vectors

  datatype Entry = Entry(row: nat, col: nat, val: int)

  type Matrix = seq<Entry>

  predicate InRange(M: Matrix, rows: nat, cols: nat) {
    forall i :: 0 <= i < |M| ==> M[i].row < rows && M[i].col < cols
  }

  /** The bilinear form v M z; several entries may share a position. */
  function Form(v: seq<int>, M: Matrix, z: seq<int>): int
    requires InRange(M, |v|, |z|)
  {
    if |M| == 0 then 0 else
    var e := M[|M| - 1];
    Form(v, M[..|M| - 1], z) + v[e.row] * e.val * z[e.col]
  }

  /** Row r of M times z. */
  function RowTimes(M: Matrix, r: nat, z: seq<int>): int
    requires forall i :: 0 <= i < |M| ==> M[i].col < |z|
  {
    if |M| == 0 then 0 else
    var e := M[|M| - 1];
    RowTimes(M[..|M| - 1], r, z) + if e.row == r then e.val * z[e.col] else 0
  }

  function MulVec(rows: nat, M: Matrix, z: seq<int>, p: Modulus): (r: seq<int>)
    requires InRange(M, rows, |z|)
    ensures |r| == rows && CanonicalV(r, p)
  {
    if |M| == 0 then Const(rows, 0) else
    var e := M[|M| - 1];
    var r := MulVec(rows, M[..|M| - 1], z, p);
    r[e.row := Mod(r[e.row] + e.val * z[e.col], p)]
  }

  function VecMul(cols: nat, v: seq<int>, M: Matrix, p: Modulus): (r: seq<int>)
    requires InRange(M, |v|, cols)
    ensures |r| == cols && CanonicalV(r, p)
  {
    if |M| == 0 then Const(cols, 0) else
    var e := M[|M| - 1];
    var r := VecMul(cols, v, M[..|M| - 1], p);
    r[e.col := Mod(r[e.col] + v[e.row] * e.val, p)]
  }

  method MultiplyVec(rows: nat, M: Matrix, z: seq<int>, p: Modulus) returns (r: seq<int>)
    requires InRange(M, rows, |z|)
    ensures r == MulVec(rows, M, z, p)
  {
    hide Mod;
    var result := new int[rows](_ => 0);
    assert result[..] == Const(rows, 0);
    for i := 0 to |M|
      invariant result[..] == MulVec(rows, M[..i], z, p)
    {
      assert M[..i + 1][..i] == M[..i];
      result[M[i].row] := Mod(result[M[i].row] + M[i].val * z[M[i].col], p);
    }
    assert M[..|M|] == M;
    r := result[..];
  }

  method VecMultiplyMat(cols: nat, M: Matrix, v: seq<int>, p: Modulus) returns (r: seq<int>)
    requires InRange(M, |v|, cols)
    ensures r == VecMul(cols, v, M, p)
  {
    hide Mod;
    var result := new int[cols](_ => 0);
    assert result[..] == Const(cols, 0);
    for i := 0 to |M|
      invariant result[..] == VecMul(cols, v, M[..i], p)
    {
      assert M[..i + 1][..i] == M[..i];
      result[M[i].col] := Mod(result[M[i].col] + v[M[i].row] * M[i].val, p);
    }
    assert M[..|M|] == M;
    r := result[..];
  }

  /** M z is the column of row products: <v, M z> is the bilinear form. */
  lemma {:induction false} MulVecForm(v: seq<int>, M: Matrix, z: seq<int>, p: Modulus)
    requires InRange(M, |v|, |z|)
    ensures Cong(Dot(v, MulVec(|v|, M, z, p)), Form(v, M, z), p)
  {
    hide Mod, Dot;
    if |M| == 0 {
      DotZero(|v|, v);
    } else {
      var n := |M| - 1;
      MulVecForm(v, M[..n], z, p);
      MulVecStep(v, MulVec(|v|, M[..n], z, p), M[n], z, Form(v, M[..n], z), p);
    }
  }

  lemma MulVecStep(v: seq<int>, r: seq<int>, e: Entry, z: seq<int>, f: int, p: Modulus)
    requires |r| == |v| && e.row < |v| && e.col < |z| && Cong(Dot(v, r), f, p)
    ensures Cong(Dot(v, r[e.row := Mod(r[e.row] + e.val * z[e.col], p)]), f + v[e.row] * e.val * z[e.col], p)
  {
    hide Mod, Dot;
    var x := Mod(r[e.row] + e.val * z[e.col], p);
    DotUpdate(r, v, e.row, x);
    ModCong(r[e.row] + e.val * z[e.col], p);
    FormStep(Dot(v, r), f, x, r[e.row], v[e.row], e.val, z[e.col], p);
  }

  lemma FormStep(d: int, f: int, x: int, y: int, v: int, m: int, z: int, p: Modulus)
    requires Cong(d, f, p) && Cong(x, y + m * z, p)
    ensures Cong(d + (x - y) * v, f + v * m * z, p)
  {
    hide Mod;
    CongSub(x, y + m * z, y, y, p);
    CongMul(x - y, m * z, v, v, p);
    InvertTriple(v, m, z);
    CongSum(d + (x - y) * v, f + v * m * z, d, f, (x - y) * v, (m * z) * v, p);
  }

  lemma InvertTriple(v: int, m: int, z: int)
    ensures v * m * z == (m * z) * v == (v * m) * z
  {
  }

  lemma {:induction false} VecMulForm(v: seq<int>, M: Matrix, z: seq<int>, p: Modulus)
    requires InRange(M, |v|, |z|)
    ensures Cong(Dot(VecMul(|z|, v, M, p), z), Form(v, M, z), p)
  {
    hide Mod, Dot;
    if |M| == 0 {
      DotZero(|z|, z);
    } else {
      var n := |M| - 1;
      VecMulForm(v, M[..n], z, p);
      VecMulStep(v, VecMul(|z|, v, M[..n], p), M[n], z, Form(v, M[..n], z), p);
    }
  }

  lemma VecMulStep(v: seq<int>, r: seq<int>, e: Entry, z: seq<int>, f: int, p: Modulus)
    requires |r| == |z| && e.row < |v| && e.col < |z| && Cong(Dot(r, z), f, p)
    ensures Cong(Dot(r[e.col := Mod(r[e.col] + v[e.row] * e.val, p)], z), f + v[e.row] * e.val * z[e.col], p)
  {
    hide Mod, Dot;
    var x := Mod(r[e.col] + v[e.row] * e.val, p);
    DotUpdate(r, z, e.col, x);
    ModCong(r[e.col] + v[e.row] * e.val, p);
    FormStepLeft(Dot(r, z), f, x, r[e.col], v[e.row], e.val, z[e.col], p);
  }

  lemma FormStepLeft(d: int, f: int, x: int, y: int, v: int, m: int, z: int, p: Modulus)
    requires Cong(d, f, p) && Cong(x, y + v * m, p)
    ensures Cong(d + (x - y) * z, f + v * m * z, p)
  {
    hide Mod;
    CongSub(x, y + v * m, y, y, p);
    CongMul(x - y, v * m, z, z, p);
    CongSum(d + (x - y) * z, f + v * m * z, d, f, (x - y) * z, (v * m) * z, p);
  }

  /** The two products are adjoint: <v, M z> = <v M, z>. */
  lemma Adjoint(v: seq<int>, M: Matrix, z: seq<int>, p: Modulus)
    requires InRange(M, |v|, |z|)
    ensures Cong(Dot(v, MulVec(|v|, M, z, p)), Dot(VecMul(|z|, v, M, p), z), p)
  {
    hide Mod, Dot;
    MulVecForm(v, M, z, p);
    VecMulForm(v, M, z, p);
  }

  lemma {:induction false} MulVecRow(rows: nat, M: Matrix, z: seq<int>, r: nat, p: Modulus)
    requires InRange(M, rows, |z|) && r < rows
    ensures Cong(MulVec(rows, M, z, p)[r], RowTimes(M, r, z), p)
  {
    if |M| == 0 {
    } else {
      hide Mod;
      var e := M[|M| - 1];
      MulVecRow(rows, M[..|M| - 1], z, r, p);
      if e.row == r {
        var x := MulVec(rows, M[..|M| - 1], z, p)[r];
        ModCong(x + e.val * z[e.col], p);
        CongAdd(x, RowTimes(M[..|M| - 1], r, z), e.val * z[e.col], e.val * z[e.col], p);
      }
    }
  }

  // ---------- powers ----------

  function Pow(x: int, i: nat): int {
    if i == 0 then 1 else Pow(x, i - 1) * x
  }

  function Powers(x: int, n: nat, p: Modulus): (r: seq<int>)
    ensures |r| == n
  {
    seq(n, i requires 0 <= i < n => Mod(Pow(x, i), p))
  }

  /** The iterator of powers: each element is the running power, multiplied once per step. */
  method ExpIter(x: int, n: nat, p: Modulus) returns (r: seq<int>)
    ensures r == Powers(x, n, p)
  {
    hide Mod;
    r := [];
    var next := Mod(1, p);
    for i := 0 to n
      invariant r == Powers(x, i, p) && next == Mod(Pow(x, i), p)
    {
      r := r + [next];
      ModCong(Pow(x, i), p);
      CongMul(next, Pow(x, i), x, x, p);
      next := Mod(next * x, p);
    }
  }

  lemma {:induction false} PowMul(x: int, y: int, i: nat)
    ensures Pow(x * y, i) == Pow(x, i) * Pow(y, i)
  {
    if i == 0 {
    } else {
      PowMul(x, y, i - 1);
      PowMulStep(Pow(x, i - 1), Pow(y, i - 1), x, y);
    }
  }

  lemma PowMulStep(a: int, b: int, x: int, y: int)
    ensures (a * b) * (x * y) == (a * x) * (b * y)
  {
  }

  lemma {:induction false} PowCong(x: int, y: int, i: nat, p: Modulus)
    requires Cong(x, y, p)
    ensures Cong(Pow(x, i), Pow(y, i), p)
  {
    if i == 0 {
    } else {
      hide Mod;
      PowCong(x, y, i - 1, p);
      CongMul(Pow(x, i - 1), Pow(y, i - 1), x, y, p);
    }
  }

  lemma {:induction false} PowOne(i: nat)
    ensures Pow(1, i) == 1
  {
    if i == 0 {
    } else {
      PowOne(i - 1);
    }
  }
}
