/** The compiled instances, and the theorem that they hold exactly when the circuit's constraints do. */
module CircuitInstance {
  import opened PowersOfTwo
  import opened PrimeField
  import opened Vectors
  import opened SparseMatrix
  import opened Constraints
  import opened CircuitShape
  import opened R1csToIpa

  /** A padded instance: z is the variables, the constant one, and the inputs. */
  datatype Instance = Instance(cons: nat, vars: nat, io: nat, A: Matrix, B: Matrix, C: Matrix)

  /** Panic is a failed assertion of the constructor. */
  datatype SatResult = Answer(ok: bool) | InvalidNumberOfInputs | Panic | NotBuilt

  datatype NewResult = Built(inst: Instance) | InvalidIndex | InvalidScalar

  predicate Fits(inst: Instance) {
    var cols := inst.vars + 1 + inst.io;
    InRange(inst.A, inst.cons, cols) && InRange(inst.B, inst.cons, cols) && InRange(inst.C, inst.cons, cols)
  }

  /** (A z)_r (B z)_r = (C z)_r. */
  ghost predicate RowHolds(A: Matrix, B: Matrix, C: Matrix, rows: nat, r: nat, z: seq<int>, p: Modulus)
    requires InRange(A, rows, |z|) && InRange(B, rows, |z|) && InRange(C, rows, |z|)
  {
    Cong(RowTimes(A, r, z) * RowTimes(B, r, z), RowTimes(C, r, z), p)
  }

  ghost predicate RowsHold(A: Matrix, B: Matrix, C: Matrix, rows: nat, z: seq<int>, p: Modulus)
    requires InRange(A, rows, |z|) && InRange(B, rows, |z|) && InRange(C, rows, |z|)
  {
    forall r :: 0 <= r < rows ==> RowHolds(A, B, C, rows, r, z, p)
  }

  /** Comparing the computed vectors is checking the rows. */
  lemma VectorsAreRows(A: Matrix, B: Matrix, C: Matrix, rows: nat, z: seq<int>, p: Modulus)
    requires InRange(A, rows, |z|) && InRange(B, rows, |z|) && InRange(C, rows, |z|)
    ensures VectorsMatch(MulVec(rows, A, z, p), MulVec(rows, B, z, p), MulVec(rows, C, z, p), p)
      <==> RowsHold(A, B, C, rows, z, p)
  {
    hide Mod, MulVec, EntryOk, RowHolds;
    var a, b, c := MulVec(rows, A, z, p), MulVec(rows, B, z, p), MulVec(rows, C, z, p);
    forall r | 0 <= r < rows ensures EntryOk(a, b, c, r, p) <==> RowHolds(A, B, C, rows, r, z, p) {
      EntryIsRow(A, B, C, rows, z, r, p);
    }
  }

  lemma EntryIsRow(A: Matrix, B: Matrix, C: Matrix, rows: nat, z: seq<int>, r: nat, p: Modulus)
    requires InRange(A, rows, |z|) && InRange(B, rows, |z|) && InRange(C, rows, |z|) && r < rows
    ensures EntryOk(MulVec(rows, A, z, p), MulVec(rows, B, z, p), MulVec(rows, C, z, p), r, p)
      <==> RowHolds(A, B, C, rows, r, z, p)
  {
    hide Mod, MulVec;
    MulVecRow(rows, A, z, r, p);
    MulVecRow(rows, B, z, r, p);
    MulVecRow(rows, C, z, r, p);
    RowCompare(MulVec(rows, A, z, p)[r], MulVec(rows, B, z, p)[r], MulVec(rows, C, z, p)[r],
               RowTimes(A, r, z), RowTimes(B, r, z), RowTimes(C, r, z), p);
  }

  lemma RowCompare(a: int, b: int, c: int, x: int, y: int, z: int, p: Modulus)
    requires Cong(a, x, p) && Cong(b, y, p) && Cong(c, z, p) && Canonical(c, p)
    ensures Mod(a * b, p) == c <==> Cong(x * y, z, p)
  {
    assert Mod(c, p) == c;
    hide Mod;
    CongMul(a, x, b, y, p);
  }

  method CheckRows(inst: Instance, z: seq<int>, p: Modulus) returns (ok: bool)
    requires Fits(inst) && |z| == inst.vars + 1 + inst.io
    ensures ok <==> RowsHold(inst.A, inst.B, inst.C, inst.cons, z, p)
  {
    hide Mod, MulVec, EntryOk;
    var a := MultiplyVec(inst.cons, inst.A, z, p);
    var b := MultiplyVec(inst.cons, inst.B, z, p);
    var c := MultiplyVec(inst.cons, inst.C, z, p);
    VectorsAreRows(inst.A, inst.B, inst.C, inst.cons, z, p);
    var errors := 0;
    for i := 0 to inst.cons
      invariant errors >= 0 && (errors == 0 <==> forall r :: 0 <= r < i ==> EntryOk(a, b, c, r, p))
    {
      if !EntryOk(a, b, c, i, p) {
        errors := errors + 1;
      }
    }
    ok := errors == 0;
  }

  /** Checks the sizes, pads the variables with zeros, and checks the rows. */
  method IsSat(inst: Instance, vars: seq<int>, inputs: seq<int>, p: Modulus) returns (r: SatResult)
    requires Fits(inst)
    ensures |vars| > inst.vars || |inputs| != inst.io ==> r == InvalidNumberOfInputs
    ensures |vars| <= inst.vars && |inputs| == inst.io ==>
              r.Answer? && (r.ok <==> RowsHold(inst.A, inst.B, inst.C, inst.cons,
                                               vars + Const(inst.vars - |vars|, 0) + ([1] + inputs), p))
  {
    if |vars| > inst.vars || |inputs| != inst.io {
      return InvalidNumberOfInputs;
    }
    var padded := if inst.vars > |vars| then vars + Const(inst.vars - |vars|, 0) else vars;
    var z := padded + [1] + inputs;
    assert z == vars + Const(inst.vars - |vars|, 0) + ([1] + inputs);
    var ok := CheckRows(inst, z, p);
    r := Answer(ok);
  }

  // ---------- the constraints ----------

  ghost predicate AllHold(cs: seq<Constraint>, w: Assignment, p: Modulus) {
    forall i :: 0 <= i < |cs| ==> Holds(cs[i], w, p)
  }

  /** The unpadded rows hold exactly when the constraints do; rows beyond them are zero. */
  lemma ShapeRows(cs: seq<Constraint>, inputs: seq<int>, aux: seq<int>, rows: nat, p: Modulus)
    requires AllInRange(cs, |aux|, |inputs|) && |cs| <= rows
    ensures var s := (x: Side) => Entries(cs, x, |aux|);
      InRange(s(SideA), rows, |aux + inputs|) && InRange(s(SideB), rows, |aux + inputs|) &&
      InRange(s(SideC), rows, |aux + inputs|) &&
      (RowsHold(s(SideA), s(SideB), s(SideC), rows, aux + inputs, p) <==> AllHold(cs, AssignmentOf(inputs, aux), p))
  {
    hide Mod, EvalLc, Entries, AssignmentOf;
    var z, w := aux + inputs, AssignmentOf(inputs, aux);
    EntriesRow(cs, SideA, 0, inputs, aux);
    EntriesRow(cs, SideB, 0, inputs, aux);
    EntriesRow(cs, SideC, 0, inputs, aux);
    var A, B, C := Entries(cs, SideA, |aux|), Entries(cs, SideB, |aux|), Entries(cs, SideC, |aux|);
    forall r | 0 <= r < rows ensures RowHolds(A, B, C, rows, r, z, p) <==> (r < |cs| ==> Holds(cs[r], w, p)) {
      EntriesRow(cs, SideA, r, inputs, aux);
      EntriesRow(cs, SideB, r, inputs, aux);
      EntriesRow(cs, SideC, r, inputs, aux);
      assert r >= |cs| ==> RowTimes(A, r, z) * RowTimes(B, r, z) == 0;
    }
  }

  /** Renumbered rows over the zero-padded variables hold exactly when the original rows do. */
  lemma RenumberedRows(A: Matrix, B: Matrix, C: Matrix, rows: nat, aux: seq<int>, rest: seq<int>, padded: nat,
                       p: Modulus)
    requires |aux| <= padded && InRange(A, rows, |aux| + |rest|) && InRange(B, rows, |aux| + |rest|) &&
             InRange(C, rows, |aux| + |rest|)
    ensures var z' := aux + Const(padded - |aux|, 0) + rest;
      var A', B', C' := Renumber(A, |aux|, padded), Renumber(B, |aux|, padded), Renumber(C, |aux|, padded);
      InRange(A', rows, |z'|) && InRange(B', rows, |z'|) && InRange(C', rows, |z'|) &&
      (RowsHold(A', B', C', rows, z', p) <==> RowsHold(A, B, C, rows, aux + rest, p))
  {
    hide Mod, Renumber;
    var z, z' := aux + rest, aux + Const(padded - |aux|, 0) + rest;
    var A', B', C' := Renumber(A, |aux|, padded), Renumber(B, |aux|, padded), Renumber(C, |aux|, padded);
    RenumberRow(A, 0, rows, aux, rest, padded);
    RenumberRow(B, 0, rows, aux, rest, padded);
    RenumberRow(C, 0, rows, aux, rest, padded);
    forall r | 0 <= r < rows ensures RowHolds(A', B', C', rows, r, z', p) <==> RowHolds(A, B, C, rows, r, z, p) {
      RenumberRow(A, r, rows, aux, rest, padded);
      RenumberRow(B, r, rows, aux, rest, padded);
      RenumberRow(C, r, rows, aux, rest, padded);
    }
  }

  // ---------- the padded shape ----------

  function OfShape(s: Shape): Instance {
    Instance(s.cons, s.vars, s.io, s.A, s.B, s.C)
  }

  /** The conditions `R1CSInstance::new` asserts. */
  ghost predicate Accepted(inst: Instance) {
    (exists k :: inst.cons == Pow2(k)) && (exists k :: inst.vars == Pow2(k)) && inst.io < inst.vars
  }

  /** The padded shape is square, of the least power of two that reaches both of its counts. */
  lemma PadIsPower(s: Shape)
    ensures var t := Pad(s); t.vars == t.cons && LeastPower(t.vars, s.vars, s.cons)
    ensures (exists k :: s.vars == Pow2(k)) && s.cons == s.vars ==> Pad(s) == s
  {
    LeastOfMax(s.vars, s.cons);
  }

  /**
   Circuit compilation keeps the meaning: for any calls on both builders, the padded and renumbered
   instance is satisfied by the collected values exactly when every constraint of the circuit holds.
   */
  lemma CompiledMeans(cs: seq<Constraint>, inputs: seq<int>, aux: seq<int>, p: Modulus)
    requires AllInRange(cs, |aux|, |inputs|) && |inputs| >= 1
    ensures var t := Pad(UnpaddedShape(cs, |aux|, |inputs|)); var inst := OfShape(t);
      Fits(inst) &&
      (RowsHold(inst.A, inst.B, inst.C, inst.cons, aux + Const(inst.vars - |aux|, 0) + inputs, p)
       <==> AllHold(cs, AssignmentOf(inputs, aux), p))
  {
    hide Mod, Entries, RowsHold, AllHold;
    var s := UnpaddedShape(cs, |aux|, |inputs|);
    var t := Pad(s);
    ShapeRows(cs, inputs, aux, t.cons, p);
    assert aux + Const(0, 0) + inputs == aux + inputs;
    RenumberedRows(s.A, s.B, s.C, t.cons, aux, inputs, t.vars, p);
  }

  // ---------- a new instance from a shape ----------

  function VarsPadded(vars: nat, io: nat): (v: nat)
    ensures v >= vars && v >= io + 1
  {
    var v := Max(vars, io + 1);
    if NextPow2(v) != v then NextPow2(v) else v
  }

  function ConsPadded(cons: nat): (c: nat)
    ensures c >= cons && c >= 1
  {
    if NextPow2(cons) != cons then NextPow2(cons) else if cons == 0 || cons == 1 then 2 else cons
  }

  /** The padded row count is at least 2, except that no constraints at all give 1. */
  lemma FewestRows(cons: nat)
    ensures ConsPadded(cons) == 1 <==> cons == 0
  {
    assert NextPow2(0) == 1 && NextPow2(1) == 1;
  }

  /** Both sizes are the least powers of two that reach their counts, except that one constraint gives two rows. */
  lemma PaddedSizes(cons: nat, vars: nat, io: nat)
    ensures LeastPower(VarsPadded(vars, io), vars, io + 1)
    ensures cons != 1 ==> LeastPower(ConsPadded(cons), cons, 0)
    ensures cons == 1 ==> ConsPadded(cons) == 2
    ensures exists k :: ConsPadded(cons) == Pow2(k)
  {
    LeastOfMax(vars, io + 1);
    LeastOfMax(cons, 0);
    assert Pow2(1) == 2 && NextPow2(0) == 1 && NextPow2(1) == 1;
    assert cons == 1 ==> ConsPadded(cons) == Pow2(1);
  }

  predicate IndexOk(M: Matrix, s: Shape) {
    forall i :: 0 <= i < |M| ==> M[i].row < s.cons && M[i].col < s.vars + 1 + s.io
  }

  datatype Scan = Fine | BadIndex | BadScalar

  /** The first problem among entries i and on; `parses` says which values survive the way through bytes. */
  function FirstProblem(M: Matrix, s: Shape, parses: int -> bool, i: nat): (r: Scan)
    ensures r == Fine
      ==> forall j :: i <= j < |M| ==> M[j].row < s.cons && M[j].col < s.vars + 1 + s.io && parses(M[j].val)
    decreases |M| - i
  {
    if i >= |M| then Fine
    else if M[i].row >= s.cons || M[i].col >= s.vars + 1 + s.io then BadIndex
    else if !parses(M[i].val) then BadScalar
    else FirstProblem(M, s, parses, i + 1)
  }

  predicate AllParse(M: Matrix, parses: int -> bool) {
    forall i :: 0 <= i < |M| ==> parses(M[i].val)
  }

  predicate InPlace(e: Entry, s: Shape) {
    e.row < s.cons && e.col < s.vars + 1 + s.io
  }

  predicate Sound(e: Entry, s: Shape, parses: int -> bool) {
    InPlace(e, s) && parses(e.val)
  }

  /** Entry j is the first that is out of range or does not parse, and it is out of range. */
  predicate FirstOutside(M: Matrix, s: Shape, parses: int -> bool, i: nat, j: nat) {
    i <= j < |M| && !InPlace(M[j], s) && forall l :: i <= l < j ==> Sound(M[l], s, parses)
  }

  /** There is no problem exactly when every index is in range and every value parses; the first offender decides. */
  lemma {:induction false} ProblemIsFirst(M: Matrix, s: Shape, parses: int -> bool, i: nat)
    requires i <= |M|
    ensures FirstProblem(M, s, parses, i) == Fine <==> forall j :: i <= j < |M| ==> Sound(M[j], s, parses)
    ensures FirstProblem(M, s, parses, i) == BadIndex <==> exists j :: FirstOutside(M, s, parses, i, j)
    decreases |M| - i
  {
    if i == |M| {
    } else {
      ProblemIsFirst(M, s, parses, i + 1);
      if Sound(M[i], s, parses) && FirstProblem(M, s, parses, i + 1) == BadIndex {
        var j :| FirstOutside(M, s, parses, i + 1, j);
        assert FirstOutside(M, s, parses, i, j);
      } else if !InPlace(M[i], s) {
        assert FirstOutside(M, s, parses, i, i);
      } else if exists j :: FirstOutside(M, s, parses, i, j) {
        var j :| FirstOutside(M, s, parses, i, j);
        assert j == i || Sound(M[i], s, parses);
        assert FirstOutside(M, s, parses, i + 1, j);
      }
    }
  }

  /** An instance is built exactly when all indices are in range and all values parse. */
  lemma BuiltWhen(s: Shape, parses: int -> bool)
    ensures NewFromShape(s, parses).Built?
      <==> IndexOk(s.A, s) && IndexOk(s.B, s) && IndexOk(s.C, s) && ShapeParses(s, parses)
  {
    ProblemIsFirst(s.A, s, parses, 0);
    ProblemIsFirst(s.B, s, parses, 0);
    ProblemIsFirst(s.C, s, parses, 0);
    hide FirstProblem, Converted, VarsPadded, ConsPadded, FirstOutside;
    assert FirstProblem(s.A, s, parses, 0) == Fine <==> IndexOk(s.A, s) && AllParse(s.A, parses);
    assert FirstProblem(s.B, s, parses, 0) == Fine <==> IndexOk(s.B, s) && AllParse(s.B, parses);
    assert FirstProblem(s.C, s, parses, 0) == Fine <==> IndexOk(s.C, s) && AllParse(s.C, parses);
  }

  /** With indices in range, a problem is a value that does not parse. */
  lemma {:induction false} ProblemIs(M: Matrix, s: Shape, parses: int -> bool, i: nat)
    requires IndexOk(M, s)
    ensures FirstProblem(M, s, parses, i) == if forall j :: i <= j < |M| ==> parses(M[j].val) then Fine else BadScalar
    decreases |M| - i
  {
    if i >= |M| {
    } else {
      ProblemIs(M, s, parses, i + 1);
    }
  }

  /** Dummy zero entries for circuits of no or one constraint. */
  function ZeroRows(lo: nat, hi: nat, col: nat): (z: Matrix)
    decreases hi - lo
  {
    if lo >= hi then [] else ZeroRows(lo, hi - 1, col) + [Entry(hi - 1, col, 0)]
  }

  function Converted(M: Matrix, s: Shape): Matrix {
    Renumber(M, s.vars, VarsPadded(s.vars, s.io)) + if s.cons == 0 ||
    s.cons == 1 then ZeroRows(|M|, ConsPadded(s.cons), s.vars) else []
  }

  /** The first problem of A, else of B, else of C. */
  function ShapeProblem(s: Shape, parses: int -> bool): Scan {
    var a, b := FirstProblem(s.A, s, parses, 0), FirstProblem(s.B, s, parses, 0);
    if a != Fine then a else if b != Fine then b else FirstProblem(s.C, s, parses, 0)
  }

  function NewFromShape(s: Shape, parses: int -> bool): NewResult {
    match ShapeProblem(s, parses)
    case Fine => Built(Instance(ConsPadded(s.cons), VarsPadded(s.vars, s.io), s.io,
                                Converted(s.A, s), Converted(s.B, s), Converted(s.C, s)))
    case BadIndex => InvalidIndex
    case BadScalar => InvalidScalar
  }

  method ConvertMatrix(M: Matrix, s: Shape, parses: int -> bool) returns (problem: Scan, r: Matrix)
    ensures problem == FirstProblem(M, s, parses, 0)
    ensures problem == Fine ==> r == Converted(M, s)
  {
    r := [];
    var padded := VarsPadded(s.vars, s.io);
    for i := 0 to |M|
      invariant FirstProblem(M, s, parses, 0) == FirstProblem(M, s, parses, i)
      invariant r == Renumber(M, s.vars, padded)[..i]
    {
      if M[i].row >= s.cons || M[i].col >= s.vars + 1 + s.io {
        return BadIndex, [];
      }
      if !parses(M[i].val) {
        return BadScalar, [];
      }
      r := r + [if M[i].col >= s.vars then Entry(M[i].row, M[i].col + padded - s.vars, M[i].val) else M[i]];
    }
    problem := Fine;
    assert r == Renumber(M, s.vars, padded) && r + [] == r;
    if s.cons == 0 || s.cons == 1 {
      var i := |M|;
      ghost var base := r;
      while i < ConsPadded(s.cons)
        invariant |M| <= i && if |M| <= ConsPadded(s.cons) then i <= ConsPadded(s.cons) else i == |M|
        invariant r == base + ZeroRows(|M|, i, s.vars)
      {
        r := r + [Entry(i, s.vars, 0)];
        assert ZeroRows(|M|, i + 1, s.vars) == ZeroRows(|M|, i, s.vars) + [Entry(i, s.vars, 0)];
        i := i + 1;
      }
      NoZeroRows(|M|, ConsPadded(s.cons), s.vars);
      assert base + [] == base;
      assert r == base + ZeroRows(|M|, ConsPadded(s.cons), s.vars);
    }
  }

  lemma NoZeroRows(lo: nat, hi: nat, col: nat)
    ensures lo >= hi ==> ZeroRows(lo, hi, col) == [] && ZeroRows(lo, lo, col) == []
  {
  }

  method NewInstance(s: Shape, parses: int -> bool) returns (r: NewResult)
    ensures r == NewFromShape(s, parses)
  {
    hide Converted, FirstProblem;
    var problem, A := ConvertMatrix(s.A, s, parses);
    var B, C;
    if problem == Fine {
      problem, B := ConvertMatrix(s.B, s, parses);
    }
    if problem == Fine {
      problem, C := ConvertMatrix(s.C, s, parses);
    }
    match problem
    case Fine => r := Built(Instance(ConsPadded(s.cons), VarsPadded(s.vars, s.io), s.io, A, B, C));
    case BadIndex => r := InvalidIndex;
    case BadScalar => r := InvalidScalar;
  }

  /** Every value of the shape survives the way through bytes. */
  predicate ShapeParses(s: Shape, parses: int -> bool) {
    AllParse(s.A, parses) && AllParse(s.B, parses) && AllParse(s.C, parses)
  }

  /** A shape with its indices in range is rejected exactly for a value that does not parse. */
  lemma RejectedForScalar(s: Shape, parses: int -> bool)
    requires IndexOk(s.A, s) && IndexOk(s.B, s) && IndexOk(s.C, s)
    ensures ShapeProblem(s, parses) == if ShapeParses(s, parses) then Fine else BadScalar
  {
    hide FirstProblem, IndexOk;
    ProblemIs(s.A, s, parses, 0);
    ProblemIs(s.B, s, parses, 0);
    ProblemIs(s.C, s, parses, 0);
  }

  lemma {:induction false} ZeroRowsRow(lo: nat, hi: nat, col: nat, r: nat, z: seq<int>)
    requires col < |z|
    ensures InRange(ZeroRows(lo, hi, col), hi, |z|) && RowTimes(ZeroRows(lo, hi, col), r, z) == 0
    decreases hi
  {
    if lo >= hi {
    } else {
      hide RowTimes;
      ZeroRowsRow(lo, hi - 1, col, r, z);
      RowSnoc(ZeroRows(lo, hi - 1, col), Entry(hi - 1, col, 0), r, z);
    }
  }

  lemma ConvertedRow(M: Matrix, s: Shape, r: nat, aux: seq<int>, rest: seq<int>)
    requires IndexOk(M, s) && |aux| == s.vars && |rest| == s.io + 1
    ensures var z := aux + Const(VarsPadded(s.vars, s.io) - |aux|, 0) + rest;
      InRange(Converted(M, s), ConsPadded(s.cons), |z|) && RowTimes(Converted(M, s), r, z) == RowTimes(M, r, aux + rest)
  {
    hide Renumber, VarsPadded, ConsPadded;
    var v := VarsPadded(s.vars, s.io);
    var z := aux + Const(v - |aux|, 0) + rest;
    RenumberRow(M, r, ConsPadded(s.cons), aux, rest, v);
    var N := if s.cons == 0 || s.cons == 1 then ZeroRows(|M|, ConsPadded(s.cons), s.vars) else [];
    ZeroRowsRow(|M|, ConsPadded(s.cons), s.vars, r, z);
    RowConcat(Renumber(M, |aux|, v), N, r, z);
  }

  /** The re-padded instance is satisfied exactly when the shape's rows hold. */
  lemma NewInstanceMeans(s: Shape, parses: int -> bool, aux: seq<int>, inputs: seq<int>, p: Modulus)
    requires IndexOk(s.A, s) && IndexOk(s.B, s) && IndexOk(s.C, s) && |aux| == s.vars && |inputs| == s.io + 1
    ensures NewFromShape(s, parses) == InvalidScalar <==> !ShapeParses(s, parses)
    ensures NewFromShape(s, parses).Built? <==> ShapeParses(s, parses)
    ensures NewFromShape(s, parses).Built? ==> var inst := NewFromShape(s, parses).inst;
      Fits(inst) && Accepted(inst) &&
      (RowsHold(inst.A, inst.B, inst.C, inst.cons, aux + Const(inst.vars - |aux|, 0) + inputs, p)
       <==> RowsHold(s.A, s.B, s.C, inst.cons, aux + inputs, p))
  {
    hide Mod, Converted, VarsPadded, ConsPadded, ShapeProblem, ShapeParses;
    RejectedForScalar(s, parses);
    if !ShapeParses(s, parses) {
      return;
    }
    var inst := NewFromShape(s, parses).inst;
    var z, z' := aux + inputs, aux + Const(inst.vars - |aux|, 0) + inputs;
    PaddedSizes(s.cons, s.vars, s.io);
    ConvertedRow(s.A, s, 0, aux, inputs);
    ConvertedRow(s.B, s, 0, aux, inputs);
    ConvertedRow(s.C, s, 0, aux, inputs);
    forall r | 0 <= r < inst.cons
      ensures RowHolds(inst.A, inst.B, inst.C, inst.cons, r, z', p) <==> RowHolds(s.A, s.B, s.C, inst.cons, r, z, p)
    {
      ConvertedRow(s.A, s, r, aux, inputs);
      ConvertedRow(s.B, s, r, aux, inputs);
      ConvertedRow(s.C, s, r, aux, inputs);
    }
  }

  /** For a circuit: its constraints hold exactly when the new instance is satisfied. */
  lemma NewInstanceCompiles(cs: seq<Constraint>, parses: int -> bool, inputs: seq<int>, aux: seq<int>, p: Modulus)
    requires AllInRange(cs, |aux|, |inputs|) && |inputs| >= 1
    ensures var s := UnpaddedShape(cs, |aux|, |inputs|); var r := NewFromShape(s, parses);
      (r == InvalidScalar <==> !ShapeParses(s, parses)) && (r.Built? <==> ShapeParses(s, parses))
    ensures var s := UnpaddedShape(cs, |aux|, |inputs|); var r := NewFromShape(s, parses);
      r.Built? ==>
        Fits(r.inst) && r.inst.io == s.io &&
        (RowsHold(r.inst.A, r.inst.B, r.inst.C, r.inst.cons, aux + Const(r.inst.vars - |aux|, 0) + inputs, p)
         <==> AllHold(cs, AssignmentOf(inputs, aux), p))
  {
    hide Mod, Entries, RowsHold, AllHold, Converted, VarsPadded, ConsPadded, NewFromShape, ShapeParses;
    var s := UnpaddedShape(cs, |aux|, |inputs|);
    ShapeRows(cs, inputs, aux, |cs|, p);
    ShapeRows(cs, inputs, aux, ConsPadded(|cs|), p);
    NewInstanceMeans(s, parses, aux, inputs, p);
    BuiltFields(s, parses);
  }

  lemma BuiltFields(s: Shape, parses: int -> bool)
    ensures NewFromShape(s, parses).Built? ==> var inst := NewFromShape(s, parses).inst;
      inst.cons == ConsPadded(s.cons) && inst.vars == VarsPadded(s.vars, s.io) && inst.io == s.io
  {
  }

  // ---------- the inner-product argument's instance ----------

  /** Rows are padded so that rows and columns together are a power of two. */
  function ArgumentInstance(s: Shape, inputs: seq<int>): (r: R1csToIpa.R1CS) {
    var cols := s.vars + s.io + 1;
    R1csToIpa.R1CS(s.cons + (NextPow2(s.cons + cols) - (s.cons + cols)), cols, s.A, s.B, s.C, inputs)
  }

  /**
   The padded instance has the size the argument needs, and is satisfied exactly when the circuit's
   constraints hold.
   */
  lemma ArgumentInstanceMeans(cs: seq<Constraint>, inputs: seq<int>, aux: seq<int>, p: Modulus)
    requires AllInRange(cs, |aux|, |inputs|) && |inputs| >= 1
    ensures var r := ArgumentInstance(UnpaddedShape(cs, |aux|, |inputs|), inputs);
      R1csToIpa.WellFormed(r, aux) && r.cols == |aux| + |inputs| && LeastPower(r.rows + r.cols, |cs| + r.cols, 0) &&
      (R1csToIpa.Satisfied(r, aux, p) <==> AllHold(cs, AssignmentOf(inputs, aux), p))
  {
    hide Mod, Entries, RowsHold, AllHold, MulVec;
    var s := UnpaddedShape(cs, |aux|, |inputs|);
    var r := ArgumentInstance(s, inputs);
    LeastOfMax(s.cons + r.cols, 0);
    ShapeRows(cs, inputs, aux, r.rows, p);
    VectorsAreRows(s.A, s.B, s.C, r.rows, aux + inputs, p);
  }

  // ---------- whole circuits ----------

  /** Every constraint uses only variables that were allocated before it. */
  predicate Scoped(ops: seq<Op>) {
    |ops| == 0 ||
    (Scoped(ops[..|ops| - 1]) && var op := ops[|ops| - 1];
     op.Enforce? ==> ConstraintInRange(op.c, |AuxValues(ops[..|ops| - 1])|, |Inputs(ops[..|ops| - 1])|))
  }

  lemma {:induction false} LcGrows(l: Lc, vars: nat, inputs: nat, vars': nat, inputs': nat)
    requires LcInRange(l, vars, inputs) && vars <= vars' && inputs <= inputs'
    ensures LcInRange(l, vars', inputs')
    decreases l
  {
    match l
    case Zero =>
    case Add(m, _, _) => LcGrows(m, vars, inputs, vars', inputs');
  }

  lemma {:induction false} ScopedInRange(ops: seq<Op>)
    requires Scoped(ops)
    ensures AllInRange(ConstraintsOf(ops), |AuxValues(ops)|, |Inputs(ops)|)
  {
    if |ops| == 0 {
    } else {
      var before := ops[..|ops| - 1];
      ScopedInRange(before);
      var cs := ConstraintsOf(before);
      forall i | 0 <= i < |cs| ensures ConstraintInRange(cs[i], |AuxValues(ops)|, |Inputs(ops)|) {
        LcGrows(cs[i].a, |AuxValues(before)|, |Inputs(before)|, |AuxValues(ops)|, |Inputs(ops)|);
        LcGrows(cs[i].b, |AuxValues(before)|, |Inputs(before)|, |AuxValues(ops)|, |Inputs(ops)|);
        LcGrows(cs[i].c, |AuxValues(before)|, |Inputs(before)|, |AuxValues(ops)|, |Inputs(ops)|);
      }
    }
  }

  /** The circuit's constraints under the values it was given. */
  ghost predicate CircuitHolds(ops: seq<Op>, p: Modulus) {
    AllHold(ConstraintsOf(ops), AssignmentOf(Inputs(ops), AuxValues(ops)), p)
  }

  function PlainShape(ops: seq<Op>): Shape {
    UnpaddedShape(ConstraintsOf(ops), |AuxValues(ops)|, |Inputs(ops)|)
  }

  function CompiledShape(ops: seq<Op>): Shape {
    Pad(PlainShape(ops))
  }

  /** Some power of two reaches the variables and the constraints but not the inputs. */
  ghost predicate TooManyInputs(ops: seq<Op>) {
    exists k :: |AuxValues(ops)| <= Pow2(k) && |ConstraintsOf(ops)| <= Pow2(k) && Pow2(k) < |Inputs(ops)|
  }

  lemma PanicMeans(ops: seq<Op>)
    ensures CompiledShape(ops).io >= CompiledShape(ops).vars <==> TooManyInputs(ops)
  {
    var t := CompiledShape(ops);
    PadIsPower(PlainShape(ops));
    hide Pad, Entries;
    var k :| t.vars == Pow2(k);
    assert t.io >= t.vars ==> Pow2(k) < |Inputs(ops)|;
  }

  /**
   From circuit to verdict: each builder runs the circuit, the shape is padded, and `is_sat` on the
   witness builder's values answers whether the circuit's constraints hold, unless there are as many
   inputs, not counting the constant one, as padded variables, which the instance's constructor rejects.
   */
  method CompileAndCheck(circuit: Circuit, n: nat, p: Modulus) returns (r: SatResult)
    requires Scoped(Calls(circuit, n))
    ensures TooManyInputs(Calls(circuit, n)) ==> r == Panic
    ensures !TooManyInputs(Calls(circuit, n)) ==> r.Answer? && (r.ok <==> CircuitHolds(Calls(circuit, n), p))
  {
    hide Mod, AllHold, RowsHold, Pad, Entries, Calls;
    ghost var ops := Calls(circuit, n);
    var shape, shapeVars := BuildShape(circuit, n);
    var wit, witVars := BuildWitness(circuit, n);
    assert shapeVars == witVars;
    var unpadded := R1csShapeUnpadded(shape);
    var inst := OfShape(Pad(unpadded));
    PanicMeans(ops);
    if inst.io >= inst.vars {
      return Panic;
    }
    ScopedInRange(ops);
    CompiledMeans(ConstraintsOf(ops), wit.inputs, wit.aux, p);
    assert wit.inputs == [1] + wit.inputs[1..];
    r := IsSat(inst, wit.aux, wit.inputs[1..], p);
  }

  /** The same through the constructor that takes a shape and pads it itself. */
  method NewAndCheck(circuit: Circuit, n: nat, parses: int -> bool, p: Modulus) returns (r: SatResult)
    requires Scoped(Calls(circuit, n))
    ensures ShapeParses(PlainShape(Calls(circuit, n)), parses)
      ==> r.Answer? && (r.ok <==> CircuitHolds(Calls(circuit, n), p))
    ensures !ShapeParses(PlainShape(Calls(circuit, n)), parses) ==> r == NotBuilt
  {
    hide Mod, AllHold, RowsHold, Entries, Converted, VarsPadded, ConsPadded, Calls, ShapeParses, NewFromShape;
    ghost var ops := Calls(circuit, n);
    var shape, shapeVars := BuildShape(circuit, n);
    var wit, witVars := BuildWitness(circuit, n);
    var unpadded := R1csShapeUnpadded(shape);
    var made := NewInstance(unpadded, parses);
    ScopedInRange(ops);
    NewInstanceCompiles(ConstraintsOf(ops), parses, wit.inputs, wit.aux, p);
    if !made.Built? {
      return NotBuilt;
    }
    assert wit.inputs == [1] + wit.inputs[1..];
    r := IsSat(made.inst, wit.aux, wit.inputs[1..], p);
  }
}
