/**
 Evaluating the multilinear extension of a sparse matrix: from its entries with two tables, from padded
 lists of dereferenced values, and from the dense matrix.
 */
module SparseEval {
  import opened PowersOfTwo
  import opened PrimeField
  import opened Vectors
  import opened Tensor
  import opened SparseMatrix
  import opened Multilinear
  import opened SumcheckSpec

  /** The matrix as a table of 2^(x+y) entries, row by row; entries at one position add up. */
  function Dense(M: Matrix, rows: nat, cols: nat): (d: seq<int>)
    requires InRange(M, rows, cols)
    ensures |d| == rows * cols
  {
    if |M| == 0 then Const(rows * cols, 0) else
    var e := M[|M| - 1];
    var d := Dense(M[..|M| - 1], rows, cols);
    RowMajor(e.row, rows, cols, e.col);
    var i := e.row * cols + e.col;
    d[i := d[i] + e.val]
  }

  /** Splitting the point splits the product table. */
  lemma {:induction false} EqTableSplit(rs: seq<int>, qs: seq<int>, i: nat, j: nat, k: nat, p: Modulus)
    requires i < Pow2(|rs|) && j < Pow2(|qs|) && k == i * Pow2(|qs|) + j && k < Pow2(|rs + qs|)
    ensures Cong(EqTable(rs + qs, p)[k], EqTable(rs, p)[i] * EqTable(qs, p)[j], p)
    decreases |rs|
  {
    hide Mod, EqTable;
    if |rs| == 0 {
      assert rs + qs == qs;
      EqTableEmpty(p);
      assert 0 * Pow2(|qs|) == 0;
    } else {
      var n, h := Pow2(|rs| - 1), Pow2(|qs|);
      var i' := if i < n then i else i - n;
      var f := if i < n then 1 - rs[0] else rs[0];
      Pow2Add(|rs| - 1, |qs|);
      assert (rs + qs)[1..] == rs[1..] + qs && (rs + qs)[0] == rs[0];
      SubIndex(i, i', n, h, j);
      EqTableSplit(rs[1..], qs, i', j, i' * h + j, p);
      EqTableFirst(rs + qs, k, i' * h + j, n * h, p);
      EqTableFirst(rs, i, i', n, p);
      var x, t := EqTable(rs[1..] + qs, p)[i' * h + j], EqTable(rs[1..], p)[i'];
      SplitGlue(f, x, t, EqTable(qs, p)[j], EqTable(rs + qs, p)[k], EqTable(rs, p)[i], p);
    }
  }

  lemma SubIndex(i: nat, i': nat, n: nat, h: nat, j: nat)
    requires i < 2 * n && i' == (if i < n then i else i - n) && j < h
    ensures 0 <= i' * h + j < n * h
    ensures i * h + j == (if i < n then 0 else n * h) + (i' * h + j)
  {
    RowMajor(i', n, h, j);
    if i >= n {
      assert i * h == n * h + i' * h;
    }
  }

  lemma SplitGlue(f: int, x: int, t: int, q: int, whole: int, part: int, p: Modulus)
    requires whole == Mod(f * x, p) && part == Mod(f * t, p) && Cong(x, t * q, p)
    ensures Cong(whole, part * q, p)
  {
    hide Mod;
    ModCong(f * x, p);
    ModCong(f * t, p);
    CongScale(f, x, t * q, p);
    CongMul(part, f * t, q, q, p);
    assert f * (t * q) == (f * t) * q;
  }

  /** Entry k of the table, by its top bit. */
  lemma EqTableFirst(rs: seq<int>, k: nat, k': nat, n: nat, p: Modulus)
    requires |rs| > 0 && n == Pow2(|rs| - 1) && k' < n && (k == k' || k == n + k')
    ensures EqTable(rs, p)[k] == Mod((if k < n then 1 - rs[0] else rs[0]) * EqTable(rs[1..], p)[k'], p)
  {
    hide Mod, EqTable;
    EqTableCons(rs, p);
  }

  /** Entry by entry, the sparse evaluation is the product with the table of both points. */
  lemma {:induction false} FormIsDot(M: Matrix, rx: seq<int>, ry: seq<int>, p: Modulus)
    requires InRange(M, Pow2(|rx|), Pow2(|ry|)) && Pow2(|rx|) * Pow2(|ry|) == Pow2(|rx + ry|)
    ensures Cong(Dot(EqTable(rx + ry, p), Dense(M, Pow2(|rx|), Pow2(|ry|))), Form(EqTable(rx, p), M, EqTable(ry, p)), p)
  {
    hide Mod, Dot, EqTable, Pow2;
    var rows, cols := Pow2(|rx|), Pow2(|ry|);
    var E := EqTable(rx + ry, p);
    if |M| == 0 {
      DotZero(rows * cols, E);
    } else {
      var n := |M| - 1;
      var e := M[n];
      FormIsDot(M[..n], rx, ry, p);
      RowMajor(e.row, rows, cols, e.col);
      var i := e.row * cols + e.col;
      var d := Dense(M[..n], rows, cols);
      DotUpdate(d, E, i, d[i] + e.val);
      EqTableSplit(rx, ry, e.row, e.col, i, p);
      var x, y := EqTable(rx, p)[e.row], EqTable(ry, p)[e.col];
      DenseStep(Dot(E, d), Dot(E, d[i := d[i] + e.val]), e.val, E[i], x, y,
                Form(EqTable(rx, p), M[..n], EqTable(ry, p)),
                Form(EqTable(rx, p), M, EqTable(ry, p)), p);
    }
  }

  /** The sparse evaluation is the multilinear extension of the dense matrix. */
  lemma FormIsMle(M: Matrix, rx: seq<int>, ry: seq<int>, p: Modulus)
    requires InRange(M, Pow2(|rx|), Pow2(|ry|))
    ensures Pow2(|rx|) * Pow2(|ry|) == Pow2(|rx + ry|)
    ensures Cong(Mle(Dense(M, Pow2(|rx|), Pow2(|ry|)), rx + ry, p), Form(EqTable(rx, p), M, EqTable(ry, p)), p)
  {
    hide Mod, EqTable, Mle, Dot, Form, Dense, Pow2;
    Pow2Add(|rx|, |ry|);
    FormIsDot(M, rx, ry, p);
    MleIsDot(Dense(M, Pow2(|rx|), Pow2(|ry|)), rx + ry, p);
  }

  lemma DenseStep(d: int, d': int, v: int, e: int, x: int, y: int, f: int, f': int, p: Modulus)
    requires d' == d + v * e && Cong(e, x * y, p) && Cong(d, f, p) && f' == f + x * v * y
    ensures Cong(d', f', p)
  {
    hide Mod;
    CongScale(v, e, x * y, p);
    assert v * (x * y) == x * v * y;
    CongSum(d', f', d, f, v * e, v * (x * y), p);
  }

  /** The sum over the entries with both tables. */
  method EvaluateWithTables(M: Matrix, tx: seq<int>, ty: seq<int>, p: Modulus) returns (v: int)
    requires InRange(M, |tx|, |ty|)
    ensures v == Mod(Form(tx, M, ty), p)
  {
    hide Mod;
    v := 0;
    EmptyForm(M, tx, ty, p);
    for i := 0 to |M|
      invariant v == Mod(Form(tx, M[..i], ty), p)
    {
      assert M[..i + 1][..i] == M[..i];
      var e := M[i];
      FormStepMod(v, Form(tx, M[..i], ty), tx[e.row], ty[e.col], e.val, p);
      v := Mod(v + tx[e.row] * ty[e.col] * e.val, p);
    }
    assert M[..|M|] == M;
  }

  lemma EmptyForm(M: Matrix, tx: seq<int>, ty: seq<int>, p: Modulus)
    requires InRange(M, |tx|, |ty|)
    ensures Mod(Form(tx, M[..0], ty), p) == 0
  {
  }

  lemma FormStepMod(v: int, f: int, x: int, y: int, val: int, p: Modulus)
    requires v == Mod(f, p)
    ensures Mod(v + x * y * val, p) == Mod(f + x * val * y, p)
  {
    hide Mod;
    ModCong(f, p);
    assert x * y * val == x * val * y;
    CongAdd(v, f, x * y * val, x * val * y, p);
  }

  /** Multiplying by the row table first gives a table of column values with the same extension. */
  lemma SparseTableEvaluates(M: Matrix, rx: seq<int>, ry: seq<int>, p: Modulus)
    requires InRange(M, Pow2(|rx|), Pow2(|ry|))
    ensures Cong(Mle(VecMul(Pow2(|ry|), EqTable(rx, p), M, p), ry, p), Form(EqTable(rx, p), M, EqTable(ry, p)), p)
  {
    hide Mod, Dot, EqTable, Mle;
    var t := VecMul(Pow2(|ry|), EqTable(rx, p), M, p);
    MleIsDot(t, ry, p);
    DotComm(EqTable(ry, p), t);
    VecMulForm(EqTable(rx, p), M, EqTable(ry, p), p);
  }

  // ---------- padded lists of dereferenced values ----------

  datatype Ops = Ops(rows: seq<nat>, cols: seq<nat>, vals: seq<int>)

  /** The entries as three lists, padded to n with zeros. */
  function PaddedOps(M: Matrix, n: nat): (o: Ops)
    requires |M| <= n
    ensures |o.rows| == |o.cols| == |o.vals| == n
  {
    Ops(seq(n, i requires 0 <= i < n => if i < |M| then M[i].row else 0),
        seq(n, i requires 0 <= i < n => if i < |M| then M[i].col else 0),
        seq(n, i requires 0 <= i < n => if i < |M| then M[i].val else 0))
  }

  method SparseToDenseVecs(M: Matrix, n: nat) returns (rows: array<nat>, cols: array<nat>, vals: array<int>)
    requires |M| <= n
    ensures Ops(rows[..], cols[..], vals[..]) == PaddedOps(M, n)
  {
    rows, cols, vals := new nat[n](_ => 0), new nat[n](_ => 0), new int[n](_ => 0);
    for i := 0 to |M|
      invariant forall j :: 0 <= j < i ==> rows[j] == M[j].row && cols[j] == M[j].col && vals[j] == M[j].val
      invariant forall j :: i <= j < n ==> rows[j] == 0 && cols[j] == 0 && vals[j] == 0
    {
      rows[i] := M[i].row;
      cols[i] := M[i].col;
      vals[i] := M[i].val;
    }
  }

  /** The shorter point gets leading zeros. */
  function Equalize(rx: seq<int>, ry: seq<int>): (r: (seq<int>, seq<int>))
    ensures |r.0| == |r.1| == if |rx| < |ry| then |ry| else |rx|
  {
    if |rx| < |ry| then (Const(|ry| - |rx|, 0) + rx, ry)
    else if |rx| > |ry| then (rx, Const(|rx| - |ry|, 0) + ry)
    else (rx, ry)
  }

  lemma {:induction false} EqTableZeros(d: nat, p: Modulus)
    ensures Cong(EqTable(Const(d, 0), p)[0], 1, p)
  {
    hide Mod, EqTable;
    if d == 0 {
      EqTableEmpty(p);
      assert Const(0, 0) == [];
    } else {
      EqTableZeros(d - 1, p);
      assert Const(d, 0)[1..] == Const(d - 1, 0);
      EqTableFirst(Const(d, 0), 0, 0, Pow2(d - 1), p);
      var x := EqTable(Const(d - 1, 0), p)[0];
      ModCong(1 * x, p);
    }
  }

  /** Leading zeros leave the first entries of the table as they were. */
  lemma EqTablePadded(d: nat, rs: seq<int>, i: nat, p: Modulus)
    requires i < Pow2(|rs|) && i < Pow2(d + |rs|)
    ensures Cong(EqTable(Const(d, 0) + rs, p)[i], EqTable(rs, p)[i], p)
  {
    hide Mod, EqTable;
    EqTableZeros(d, p);
    assert 0 * Pow2(|rs|) == 0;
    EqTableSplit(Const(d, 0), rs, 0, i, i, p);
    var x := EqTable(Const(d, 0), p)[0];
    CongMul(x, 1, EqTable(rs, p)[i], EqTable(rs, p)[i], p);
  }

  lemma EqualizedTables(rx: seq<int>, ry: seq<int>, i: nat, p: Modulus)
    ensures var (ex, ey) := Equalize(rx, ry);
      (i < Pow2(|rx|) ==> i < Pow2(|ex|) && Cong(EqTable(ex, p)[i], EqTable(rx, p)[i], p)) &&
      (i < Pow2(|ry|) ==> i < Pow2(|ey|) && Cong(EqTable(ey, p)[i], EqTable(ry, p)[i], p))
  {
    hide Mod, EqTable, Pow2;
    if |rx| < |ry| {
      Pow2Monotone(|rx|, |ry|);
      if i < Pow2(|rx|) {
        EqTablePadded(|ry| - |rx|, rx, i, p);
      }
    } else if |rx| > |ry| {
      Pow2Monotone(|ry|, |rx|);
      if i < Pow2(|ry|) {
        EqTablePadded(|rx| - |ry|, ry, i, p);
      }
    }
  }

  function Lookup(mem: seq<int>, addrs: seq<nat>): (v: seq<int>)
    requires forall i :: 0 <= i < |addrs| ==> addrs[i] < |mem|
    ensures |v| == |addrs|
  {
    seq(|addrs|, i requires 0 <= i < |addrs| => mem[addrs[i]])
  }

  /** The three tables of the dot-product circuit: dereferenced rows, dereferenced columns, values. */
  function DotTables(M: Matrix, n: nat, memX: seq<int>, memY: seq<int>): (t: Tables)
    requires |M| <= n && |memX| > 0 && |memY| > 0 && InRange(M, |memX|, |memY|)
    ensures Sized(t, n)
  {
    var o := PaddedOps(M, n);
    Tables(Lookup(memX, o.rows), Lookup(memY, o.cols), o.vals)
  }

  lemma {:induction false} PaddedTriple(M: Matrix, n: nat, tx: seq<int>, ty: seq<int>, memX: seq<int>, memY: seq<int>,
                                        i: nat, p: Modulus)
    requires |M| <= n && i <= n && |memX| > 0 && |memY| > 0 && InRange(M, |memX|, |memY|) && InRange(M, |tx|, |ty|)
    requires forall j :: 0 <= j < |M| ==> Cong(memX[M[j].row], tx[M[j].row], p) && Cong(memY[M[j].col], ty[M[j].col], p)
    ensures Cong(Triple(DotTables(M, n, memX, memY), i), Form(tx, M[..if i < |M| then i else |M|], ty), p)
  {
    hide Mod;
    if i == 0 {
    } else {
      var j := i - 1;
      PaddedTriple(M, n, tx, ty, memX, memY, j, p);
      var t := DotTables(M, n, memX, memY);
      if j < |M| {
        var e := M[j];
        assert M[..i][..j] == M[..j];
        TripleStep(Triple(t, j), Form(tx, M[..j], ty), memX[e.row], memY[e.col], e.val, tx[e.row], ty[e.col], p);
      } else {
        assert t.A[j] * t.B[j] * t.C[j] == 0;
      }
    }
  }

  lemma TripleStep(s: int, f: int, x: int, y: int, v: int, x': int, y': int, p: Modulus)
    requires Cong(s, f, p) && Cong(x, x', p) && Cong(y, y', p)
    ensures Cong(s + x * y * v, f + x' * v * y', p)
  {
    hide Mod;
    CongMul(x, x', y, y', p);
    CongMul(x * y, x' * y', v, v, p);
    assert x' * y' * v == x' * v * y';
    CongAdd(s, f, x * y * v, x' * v * y', p);
  }

  /**
   The padded lists over the equalized points evaluate the matrix: the dot product of row values,
   column values and entries is the evaluation from the entries, and the multilinear extension of
   the dense matrix at (rx, ry).
   */
  lemma SparseEvaluation(M: Matrix, n: nat, rx: seq<int>, ry: seq<int>, p: Modulus)
    requires InRange(M, Pow2(|rx|), Pow2(|ry|)) && |M| <= n
    ensures var (ex, ey) := Equalize(rx, ry);
      InRange(M, Pow2(|ex|), Pow2(|ey|)) &&
      Cong(Triple(DotTables(M, n, EqTable(ex, p), EqTable(ey, p)), n), Form(EqTable(rx, p), M, EqTable(ry, p)), p)
    ensures Pow2(|rx|) * Pow2(|ry|) == Pow2(|rx + ry|)
    ensures Cong(Mle(Dense(M, Pow2(|rx|), Pow2(|ry|)), rx + ry, p), Form(EqTable(rx, p), M, EqTable(ry, p)), p)
  {
    hide Mod, EqTable, Mle, Dot, Form, Dense, DotTables, Triple, Equalize, Pow2;
    var (ex, ey) := Equalize(rx, ry);
    forall j | 0 <= j < |M|
      ensures M[j].row < Pow2(|ex|) && M[j].col < Pow2(|ey|) &&
              Cong(EqTable(ex, p)[M[j].row], EqTable(rx, p)[M[j].row], p) &&
              Cong(EqTable(ey, p)[M[j].col], EqTable(ry, p)[M[j].col], p)
    {
      EqualizedTables(rx, ry, M[j].row, p);
      EqualizedTables(rx, ry, M[j].col, p);
    }
    PaddedTriple(M, n, EqTable(rx, p), EqTable(ry, p), EqTable(ex, p), EqTable(ey, p), n, p);
    assert M[..|M|] == M;
    FormIsMle(M, rx, ry, p);
  }

  /** The two halves of the dot-product circuit add up to the whole, so the prover's assertion holds. */
  lemma HalvesAddUp(M: Matrix, n: nat, memX: seq<int>, memY: seq<int>, left: Tables, right: Tables, p: Modulus)
    requires |M| <= 2 * n && |memX| > 0 && |memY| > 0 && InRange(M, |memX|, |memY|)
    requires var t := DotTables(M, 2 * n, memX, memY);
      left == Tables(t.A[..n], t.B[..n], t.C[..n]) && right == Tables(t.A[n..], t.B[n..], t.C[n..])
    ensures Mod(Mod(Triple(left, n), p) + Mod(Triple(right, n), p),
                p) == Mod(Triple(DotTables(M, 2 * n, memX, memY), 2 * n), p)
  {
    hide Mod, DotTables, Triple;
    var t := DotTables(M, 2 * n, memX, memY);
    SplitTriple(t, n, n);
    LeftTriple(t, n, n);
    SumOfMods(Triple(left, n), Triple(right, n), Triple(t, 2 * n), p);
  }

  lemma SumOfMods(x: int, y: int, z: int, p: Modulus)
    requires z == x + y
    ensures Mod(Mod(x, p) + Mod(y, p), p) == Mod(z, p)
  {
    hide Mod;
    ModCong(x, p);
    ModCong(y, p);
    CongSum(Mod(x, p) + Mod(y, p), z, Mod(x, p), x, Mod(y, p), y, p);
  }

  lemma {:induction false} LeftTriple(t: Tables, n: nat, i: nat)
    requires Sized(t, 2 * n) && i <= n
    ensures Triple(Tables(t.A[..n], t.B[..n], t.C[..n]), i) == Triple(t, i)
  {
    if i == 0 {
    } else {
      LeftTriple(t, n, i - 1);
    }
  }

  lemma {:induction false} SplitTriple(t: Tables, n: nat, i: nat)
    requires Sized(t, 2 * n) && i <= n
    ensures Triple(t, n + i) == Triple(t, n) + Triple(Tables(t.A[n..], t.B[n..], t.C[n..]), i)
  {
    if i == 0 {
    } else {
      SplitTriple(t, n, i - 1);
    }
  }
}
