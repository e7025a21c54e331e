/**
 Selection and comparison gadgets: what any assignment satisfying their constraints must give, and
 that the values an honest prover assigns do satisfy them.
 */
module Gadgets {
  import opened PrimeField
  import opened Constraints

  ghost predicate IsBit(w: Assignment, x: Variable, p: Modulus) {
    Cong(w(x), 0, p) || Cong(w(x), 1, p)
  }

  /** v is x when s is 1 and y when s is 0. */
  ghost predicate Picks(v: int, s: int, x: int, y: int, p: Modulus) {
    (Cong(s, 1, p) ==> Cong(v, x, p)) && (Cong(s, 0, p) ==> Cong(v, y, p))
  }

  /** What an honest prover assigns to a selection: the first value exactly when the condition is 1. */
  ghost function Chosen(s: int, x: int, y: int, p: Modulus): int {
    if Cong(s, 1, p) then x else y
  }

  /** The inverse an honest prover computes, or 1 where there is none. */
  ghost function SafeInv(x: int, p: Modulus): int {
    if Prime(p) && Mod(x, p) != 0 then Inv(Mod(x, p), p) else 1
  }

  lemma SafeInvCancels(x: int, p: Modulus)
    requires Prime(p) && !Cong(x, 0, p)
    ensures Cong(SafeInv(x, p) * x, 1, p)
  {
    assert Mod(0, p) == 0;
    hide Mod, Inv;
    var m := Mod(x, p);
    ModCong(x, p);
    CongScale(Inv(m, p), m, x, p);
    assert Inv(m, p) * m == m * Inv(m, p);
  }

  /** One constraint as a congruence between the values of its three sides. */
  lemma HoldsIff(c: Constraint, w: Assignment, a: int, b: int, d: int, p: Modulus)
    requires EvalLc(c.a, w) == a && EvalLc(c.b, w) == b && EvalLc(c.c, w) == d
    ensures Holds(c, w, p) <==> Cong(a * b, d, p)
  {
  }

  /** (a - b) * s = c - b chooses a or b; the chosen value satisfies it when s is a bit. */
  lemma Chooses(a: int, b: int, s: int, c: int, p: Modulus)
    ensures Cong((a - b) * s, c - b, p) ==> Picks(c, s, a, b, p)
    ensures (Cong(s, 0, p) || Cong(s, 1, p)) && Cong(c, Chosen(s, a, b, p), p) ==> Cong((a - b) * s, c - b, p)
  {
    ZeroIsNotOne(p);
    hide Mod;
    if Cong(s, 1, p) {
      CongScale(a - b, s, 1, p);
      ChooseSide(c, b, a, p);
    }
    if Cong(s, 0, p) {
      CongScale(a - b, s, 0, p);
      assert (a - b) * 0 == 0;
      ChooseSide(c, b, b, p);
    }
  }

  lemma ZeroIsNotOne(p: Modulus)
    ensures !Cong(0, 1, p)
  {
  }

  lemma ChooseSide(c: int, b: int, x: int, p: Modulus)
    ensures Cong(c - b, x - b, p) <==> Cong(c, x, p)
  {
    hide Mod;
    if Cong(c - b, x - b, p) {
      CongAdd(c - b, x - b, b, b, p);
    }
    if Cong(c, x, p) {
      CongSub(c, x, b, b, p);
    }
  }

  /** a * s = c is a or 0. */
  lemma Keeps(a: int, s: int, c: int, p: Modulus)
    ensures Cong(a * s, c, p) ==> Picks(c, s, a, 0, p)
    ensures (Cong(s, 0, p) || Cong(s, 1, p)) && Cong(c, Chosen(s, a, 0, p), p) ==> Cong(a * s, c, p)
  {
    hide Mod;
    Chooses(a, 0, s, c, p);
    assert (a - 0) * s == a * s && c - 0 == c;
  }

  /** s' = 1 - s swaps the two cases. */
  lemma OneMinus(o: int, x: int, p: Modulus)
    requires Cong(o, 1, p)
    ensures Cong(o - x, 0, p) <==> Cong(x, 1, p)
    ensures Cong(o - x, 1, p) <==> Cong(x, 0, p)
  {
    hide Mod;
    if Cong(o - x, 0, p) {
      CongAdd(o - x, 0, x, x, p);
    }
    if Cong(x, 1, p) {
      CongSub(o, 1, x, 1, p);
    }
    if Cong(x, 0, p) {
      CongSub(o, 1, x, 0, p);
    }
    if Cong(o - x, 1, p) {
      CongSub(o, 1, o - x, 1, p);
    }
  }

  method AllocZero(cs: ConstraintSystem) returns (z: Variable)
    modifies cs
    ensures cs.Sat() ==> old(cs.Sat()) && Cong(cs.w(z), 0, cs.p)
    ensures cs.honest ==> old(cs.honest) && (old(cs.Sat()) ==> cs.Sat())
  {
    hide Mod, EvalLc, Holds;
    z := cs.Alloc(0);
    cs.Enforce(Zero, Zero, Term(1, z));
    EvalOne(1, z, cs.w);
    EvalZero(cs.w);
    HoldsIff(Constraint(Zero, Zero, Term(1, z)), cs.w, 0, 0, cs.w(z), cs.p);
  }

  lemma EvalZero(w: Assignment)
    ensures EvalLc(Zero, w) == 0
  {
  }

  method AllocOne(cs: ConstraintSystem) returns (o: Variable)
    modifies cs
    ensures cs.Sat() ==> old(cs.Sat()) && Cong(cs.w(o), 1, cs.p)
    ensures cs.honest ==> old(cs.honest) && (old(cs.Sat()) ==> cs.Sat())
  {
    hide Mod, EvalLc, Holds;
    o := cs.Alloc(1);
    cs.Enforce(Term(1, ONE), Term(1, ONE), Term(1, o));
    EvalOne(1, o, cs.w);
    EvalOne(1, ONE, cs.w);
    HoldsIff(Constraint(Term(1, ONE), Term(1, ONE), Term(1, o)), cs.w, cs.w(ONE), cs.w(ONE), cs.w(o), cs.p);
    if Cong(cs.w(ONE), 1, cs.p) {
      CongMul(cs.w(ONE), 1, cs.w(ONE), 1, cs.p);
    }
  }

  /** A variable constrained to 0 or 1. */
  method AllocBit(cs: ConstraintSystem, ghost value: bool) returns (b: Variable)
    requires Prime(cs.p)
    modifies cs
    ensures cs.Sat() ==> old(cs.Sat()) && IsBit(cs.w, b, cs.p)
    ensures cs.honest ==> old(cs.honest) && Cong(cs.w(b), if value then 1 else 0, cs.p) && (old(cs.Sat()) ==> cs.Sat())
  {
    hide Mod, EvalLc, Holds;
    b := cs.Alloc(if value then 1 else 0);
    cs.Enforce(Add(Term(1, ONE), -1, b), Term(1, b), Zero);
    EvalTwo(1, ONE, -1, b, cs.w);
    EvalOne(1, b, cs.w);
    EvalZero(cs.w);
    HoldsIff(Constraint(Add(Term(1, ONE), -1, b), Term(1, b), Zero), cs.w, cs.w(ONE) - cs.w(b), cs.w(b), 0, cs.p);
    if Cong(cs.w(ONE), 1, cs.p) {
      BitConstraint(cs.w(ONE), cs.w(b), cs.p);
    }
  }

  lemma BitConstraint(o: int, x: int, p: Modulus)
    requires Prime(p) && Cong(o, 1, p)
    ensures Cong((o - x) * x, 0, p) <==> Cong(x, 0, p) || Cong(x, 1, p)
  {
    hide Mod;
    OneMinus(o, x, p);
    if Cong((o - x) * x, 0, p) {
      NoZeroDivisors(o - x, x, p);
    }
    if Cong(x, 1, p) {
      CongMul(o - x, 0, x, x, p);
    }
    if Cong(x, 0, p) {
      CongScale(o - x, x, 0, p);
      assert (o - x) * 0 == 0;
    }
  }

  /** r = 1 exactly when a = b: t (a - b) = 1 - r and r (a - b) = 0. */
  method AllocNumEquals(cs: ConstraintSystem, a: Variable, b: Variable) returns (r: Variable)
    requires Prime(cs.p)
    modifies cs
    ensures cs.Sat() ==> old(cs.Sat()) && IsBit(cs.w, r, cs.p) && (Cong(cs.w(r), 1, cs.p)
                                                                   <==> Cong(cs.w(a), cs.w(b), cs.p))
    ensures cs.honest ==> old(cs.honest) && (old(cs.Sat()) ==> cs.Sat())
  {
    hide Mod, EvalLc, Holds, SafeInv;
    ghost var equal := Cong(cs.w(a), cs.w(b), cs.p);
    r := AllocBit(cs, equal);
    var t := cs.Alloc(if equal then 1 else SafeInv(cs.w(a) - cs.w(b), cs.p));
    var diff := Add(Term(1, a), -1, b);
    cs.Enforce(Term(1, t), diff, Add(Term(1, ONE), -1, r));
    cs.Enforce(Term(1, r), diff, Zero);
    EvalOne(1, t, cs.w);
    EvalOne(1, r, cs.w);
    EvalTwo(1, a, -1, b, cs.w);
    EvalTwo(1, ONE, -1, r, cs.w);
    EvalZero(cs.w);
    var d, o, x := cs.w(a) - cs.w(b), cs.w(ONE), cs.w(r);
    HoldsIff(Constraint(Term(1, t), diff, Add(Term(1, ONE), -1, r)), cs.w, cs.w(t), d, o - x, cs.p);
    HoldsIff(Constraint(Term(1, r), diff, Zero), cs.w, x, d, 0, cs.p);
    if Cong(o, 1, cs.p) {
      EqualsValue(cs.w(t), cs.w(a), cs.w(b), o, x, cs.p);
      EqualsHonest(cs.w(t), cs.w(a), cs.w(b), o, x, cs.p);
    }
  }

  lemma EqualsValue(t: int, a: int, b: int, o: int, r: int, p: Modulus)
    requires Prime(p) && Cong(o, 1, p)
    ensures Cong(t * (a - b), o - r, p) && Cong(r * (a - b), 0, p) ==> (Cong(r, 1, p) <==> Cong(a, b, p))
  {
    ZeroIsNotOne(p);
    hide Mod;
    OneMinus(o, r, p);
    if Cong(t * (a - b), o - r, p) && Cong(r * (a - b), 0, p) {
      if Cong(a, b, p) {
        CongSub(a, b, b, b, p);
        CongScale(t, a - b, 0, p);
        assert t * 0 == 0;
      } else if Cong(r, 1, p) {
        NoZeroDivisors(r, a - b, p);
        CongAdd(a - b, 0, b, b, p);
      }
    }
  }

  lemma EqualsHonest(t: int, a: int, b: int, o: int, r: int, p: Modulus)
    requires Prime(p) && Cong(o, 1, p)
    ensures Cong(r, if Cong(a, b, p) then 1 else 0, p) && Cong(t, if Cong(a, b, p) then 1 else SafeInv(a - b, p), p)
      ==> Cong(t * (a - b), o - r, p) && Cong(r * (a - b), 0, p)
  {
    hide Mod, SafeInv;
    OneMinus(o, r, p);
    if Cong(a, b, p) {
      CongSub(a, b, b, b, p);
      CongScale(t, a - b, 0, p);
      CongScale(r, a - b, 0, p);
      assert t * 0 == 0 && r * 0 == 0;
    } else {
      DifferenceNonZero(a, b, p);
      SafeInvCancels(a - b, p);
      if Cong(t, SafeInv(a - b, p), p) && Cong(r, 0, p) {
        CongMul(t, SafeInv(a - b, p), a - b, a - b, p);
        CongMul(r, 0, a - b, a - b, p);
      }
    }
  }

  lemma DifferenceNonZero(a: int, b: int, p: Modulus)
    requires !Cong(a, b, p)
    ensures !Cong(a - b, 0, p)
  {
    hide Mod;
    if Cong(a - b, 0, p) {
      CongAdd(a - b, 0, b, b, p);
    }
  }

  /** a when the condition is 1, b when it is 0. */
  method ConditionallySelect(cs: ConstraintSystem, a: Variable, b: Variable, cond: Variable) returns (c: Variable)
    modifies cs
    ensures cs.Sat() ==> old(cs.Sat()) && Picks(cs.w(c), cs.w(cond), cs.w(a), cs.w(b), cs.p)
    ensures cs.honest ==> old(cs.honest) && (old(cs.Sat()) && IsBit(cs.w, cond, cs.p) ==> cs.Sat())
  {
    hide Mod, EvalLc, Holds;
    c := cs.Alloc(Chosen(cs.w(cond), cs.w(a), cs.w(b), cs.p));
    cs.Enforce(Add(Term(1, a), -1, b), Term(1, cond), Add(Term(1, c), -1, b));
    EvalTwo(1, a, -1, b, cs.w);
    EvalOne(1, cond, cs.w);
    EvalTwo(1, c, -1, b, cs.w);
    var x, y, s, v := cs.w(a), cs.w(b), cs.w(cond), cs.w(c);
    HoldsIff(Constraint(Add(Term(1, a), -1, b), Term(1, cond), Add(Term(1, c), -1, b)), cs.w, x - y, s, v - y, cs.p);
    Chooses(x, y, s, v, cs.p);
  }

  /** 0 when the condition is 1, a when it is 0. */
  method SelectZeroOrNum(cs: ConstraintSystem, a: Variable, cond: Variable) returns (c: Variable)
    modifies cs
    ensures cs.Sat() ==> old(cs.Sat()) && Picks(cs.w(c), cs.w(cond), 0, cs.w(a), cs.p)
    ensures cs.honest ==> old(cs.honest) && (old(cs.Sat()) && IsBit(cs.w, cond, cs.p) ==> cs.Sat())
  {
    hide Mod, EvalLc, Holds;
    c := cs.Alloc(Chosen(cs.w(cond), 0, cs.w(a), cs.p));
    cs.Enforce(Term(1, a), Add(Term(1, ONE), -1, cond), Term(1, c));
    EvalOne(1, a, cs.w);
    EvalTwo(1, ONE, -1, cond, cs.w);
    EvalOne(1, c, cs.w);
    var x, o, s, v := cs.w(a), cs.w(ONE), cs.w(cond), cs.w(c);
    HoldsIff(Constraint(Term(1, a), Add(Term(1, ONE), -1, cond), Term(1, c)), cs.w, x, o - s, v, cs.p);
    if Cong(o, 1, cs.p) {
      OneMinus(o, s, cs.p);
      ZeroIsNotOne(cs.p);
      Keeps(x, o - s, v, cs.p);
    }
  }

  /** a when the condition is 1, 0 when it is 0. */
  method SelectNumOrZero(cs: ConstraintSystem, a: Variable, cond: Variable) returns (c: Variable)
    modifies cs
    ensures cs.Sat() ==> old(cs.Sat()) && Picks(cs.w(c), cs.w(cond), cs.w(a), 0, cs.p)
    ensures cs.honest ==> old(cs.honest) && (old(cs.Sat()) && IsBit(cs.w, cond, cs.p) ==> cs.Sat())
  {
    hide Mod, EvalLc, Holds;
    c := cs.Alloc(Chosen(cs.w(cond), cs.w(a), 0, cs.p));
    cs.Enforce(Term(1, a), Term(1, cond), Term(1, c));
    EvalOne(1, a, cs.w);
    EvalOne(1, cond, cs.w);
    EvalOne(1, c, cs.w);
    HoldsIff(Constraint(Term(1, a), Term(1, cond), Term(1, c)), cs.w, cs.w(a), cs.w(cond), cs.w(c), cs.p);
    Keeps(cs.w(a), cs.w(cond), cs.w(c), cs.p);
  }

  /** 1 when the condition is 1, a when it is 0. */
  method SelectOneOrNum(cs: ConstraintSystem, a: Variable, cond: Variable) returns (c: Variable)
    modifies cs
    ensures cs.Sat() ==> old(cs.Sat()) && Picks(cs.w(c), cs.w(cond), 1, cs.w(a), cs.p)
    ensures cs.honest ==> old(cs.honest) && (old(cs.Sat()) && IsBit(cs.w, cond, cs.p) ==> cs.Sat())
  {
    hide Mod, EvalLc, Holds;
    c := cs.Alloc(Chosen(cs.w(cond), 1, cs.w(a), cs.p));
    cs.Enforce(Add(Term(1, ONE), -1, a), Term(1, cond), Add(Term(1, c), -1, a));
    EvalTwo(1, ONE, -1, a, cs.w);
    EvalOne(1, cond, cs.w);
    EvalTwo(1, c, -1, a, cs.w);
    var o, x, s, v := cs.w(ONE), cs.w(a), cs.w(cond), cs.w(c);
    HoldsIff(Constraint(Add(Term(1, ONE), -1, a), Term(1, cond), Add(Term(1, c), -1, a)), cs.w, o - x, s, v - x, cs.p);
    Chooses(o, x, s, v, cs.p);
  }

  /** 1 when the condition is 1, a - b when it is 0. */
  method SelectOneOrDiff(cs: ConstraintSystem, a: Variable, b: Variable, cond: Variable) returns (c: Variable)
    modifies cs
    ensures cs.Sat() ==> old(cs.Sat()) && Picks(cs.w(c), cs.w(cond), 1, cs.w(a) - cs.w(b), cs.p)
    ensures cs.honest ==> old(cs.honest) && (old(cs.Sat()) && IsBit(cs.w, cond, cs.p) ==> cs.Sat())
  {
    hide Mod, EvalLc, Holds;
    c := cs.Alloc(Chosen(cs.w(cond), 1, cs.w(a) - cs.w(b), cs.p));
    cs.Enforce(Add(Add(Term(1, ONE), -1, a), 1, b), Term(1, cond), Add(Add(Term(1, c), -1, a), 1, b));
    EvalThree(1, ONE, -1, a, 1, b, cs.w);
    EvalOne(1, cond, cs.w);
    EvalThree(1, c, -1, a, 1, b, cs.w);
    var o, d, s, v := cs.w(ONE), cs.w(a) - cs.w(b), cs.w(cond), cs.w(c);
    HoldsIff(Constraint(Add(Add(Term(1, ONE), -1, a), 1, b), Term(1, cond), Add(Add(Term(1, c), -1, a), 1, b)), cs.w,
             o - d, s, v - d, cs.p);
    Chooses(o, d, s, v, cs.p);
  }

  /** a when the condition is 1, 1 when it is 0. */
  method SelectNumOrOne(cs: ConstraintSystem, a: Variable, cond: Variable) returns (c: Variable)
    modifies cs
    ensures cs.Sat() ==> old(cs.Sat()) && Picks(cs.w(c), cs.w(cond), cs.w(a), 1, cs.p)
    ensures cs.honest ==> old(cs.honest) && (old(cs.Sat()) && IsBit(cs.w, cond, cs.p) ==> cs.Sat())
  {
    hide Mod, EvalLc, Holds;
    c := cs.Alloc(Chosen(cs.w(cond), cs.w(a), 1, cs.p));
    cs.Enforce(Add(Term(1, a), -1, ONE), Term(1, cond), Add(Term(1, c), -1, ONE));
    EvalTwo(1, a, -1, ONE, cs.w);
    EvalOne(1, cond, cs.w);
    EvalTwo(1, c, -1, ONE, cs.w);
    var o, x, s, v := cs.w(ONE), cs.w(a), cs.w(cond), cs.w(c);
    HoldsIff(Constraint(Add(Term(1, a), -1, ONE), Term(1, cond), Add(Term(1, c), -1, ONE)), cs.w, x - o, s, v - o,
             cs.p);
    Chooses(x, o, s, v, cs.p);
  }

  /** A product variable. */
  method Multiply(cs: ConstraintSystem, a: Variable, b: Variable) returns (c: Variable)
    modifies cs
    ensures cs.Sat() ==> old(cs.Sat()) && Cong(cs.w(a) * cs.w(b), cs.w(c), cs.p)
    ensures cs.honest ==> old(cs.honest) && (old(cs.Sat()) ==> cs.Sat())
  {
    hide Mod, EvalLc, Holds;
    c := cs.Alloc(cs.w(a) * cs.w(b));
    cs.Enforce(Term(1, a), Term(1, b), Term(1, c));
    EvalOne(1, a, cs.w);
    EvalOne(1, b, cs.w);
    EvalOne(1, c, cs.w);
    HoldsIff(Constraint(Term(1, a), Term(1, b), Term(1, c)), cs.w, cs.w(a), cs.w(b), cs.w(c), cs.p);
  }
}
