/**
 Offline memory checking: the timestamps of a batch of reads, the multiset equality that holds
 exactly when every read returned its cell's value, and the hashed products built on it.
 */
module MemoryCheck {
  import opened PrimeField
  import opened Vectors
  import opened ProductTree

  /** One access: address, value and timestamp. */
  datatype Access = Access(addr: nat, val: int, ts: nat)

  predicate InCells(addrs: seq<nat>, cells: nat) {
    forall i :: 0 <= i < |addrs| ==> addrs[i] < cells
  }

  /** The counter of cell a; accesses outside the cells, which the source rejects, count nothing. */
  function Counter(t: seq<nat>, a: nat): nat {
    if a < |t| then t[a] else 0
  }

  function Bump(t: seq<nat>, a: nat): (t': seq<nat>)
    ensures |t'| == |t|
  {
    if a < |t| then t[a := t[a] + 1] else t
  }

  /** The counters of all cells after the accesses. */
  function After(ts: seq<nat>, addrs: seq<nat>): (a: seq<nat>)
    ensures |a| == |ts|
  {
    if |addrs| == 0 then ts else Bump(After(ts, addrs[..|addrs| - 1]), addrs[|addrs| - 1])
  }

  /** The timestamp each access reads. */
  function ReadTs(ts: seq<nat>, addrs: seq<nat>): (r: seq<nat>)
    ensures |r| == |addrs|
  {
    if |addrs| == 0 then [] else
    var n := |addrs| - 1;
    ReadTs(ts, addrs[..n]) + [Counter(After(ts, addrs[..n]), addrs[n])]
  }

  function Zeros(cells: nat): (z: seq<nat>)
    ensures |z| == cells
  {
    seq(cells, _ => 0)
  }

  function Flatten<T>(insts: seq<seq<T>>): seq<T> {
    if |insts| == 0 then [] else Flatten(insts[..|insts| - 1]) + insts[|insts| - 1]
  }

  lemma AfterSnoc(ts: seq<nat>, a: seq<nat>, x: nat)
    ensures After(ts, a + [x]) == Bump(After(ts, a), x)
    ensures ReadTs(ts, a + [x]) == ReadTs(ts, a) + [Counter(After(ts, a), x)]
  {
    assert (a + [x])[..|a|] == a;
  }

  lemma {:induction false} AfterConcat(ts: seq<nat>, a: seq<nat>, b: seq<nat>)
    ensures After(ts, a + b) == After(After(ts, a), b) && ReadTs(ts, a + b) == ReadTs(ts, a) + ReadTs(After(ts, a), b)
  {
    hide After, ReadTs, Bump, Counter;
    if |b| == 0 {
      assert a + b == a && b == [];
      NoAccess(After(ts, a));
      assert ReadTs(ts, a) + [] == ReadTs(ts, a);
    } else {
      var n := |b| - 1;
      AfterConcat(ts, a, b[..n]);
      assert a + b == (a + b[..n]) + [b[n]] && b == b[..n] + [b[n]];
      AfterSnoc(ts, a + b[..n], b[n]);
      AfterSnoc(After(ts, a), b[..n], b[n]);
      var r, s, c := ReadTs(ts, a), ReadTs(After(ts, a), b[..n]), Counter(After(ts, a + b[..n]), b[n]);
      assert (r + s) + [c] == r + (s + [c]);
    }
  }

  lemma NoAccess(ts: seq<nat>)
    ensures After(ts, []) == ts && ReadTs(ts, []) == []
  {
  }

  // ---------- the timestamp machine ----------

  /** One instance of accesses, advancing the shared counters. */
  method ReadInstance(audit: array<nat>, addrs: seq<nat>) returns (readTs: array<nat>)
    requires InCells(addrs, audit.Length)
    modifies audit
    ensures fresh(readTs) && readTs[..] == ReadTs(old(audit[..]), addrs) && audit[..] == After(old(audit[..]), addrs)
  {
    ghost var ts := audit[..];
    readTs := new nat[|addrs|](_ => 0);
    for i := 0 to |addrs|
      invariant audit[..] == After(ts, addrs[..i]) && readTs[..i] == ReadTs(ts, addrs[..i])
    {
      assert addrs[..i + 1][..i] == addrs[..i];
      var rts := audit[addrs[i]];
      readTs[i] := rts;
      audit[addrs[i]] := rts + 1;
    }
    assert addrs[..|addrs|] == addrs && readTs[..] == readTs[..|addrs|];
  }

  /** All instances of a batch share one set of counters. */
  method AddrTimestamps(cells: nat, ops: seq<seq<nat>>) returns (readTs: seq<seq<nat>>, auditTs: seq<nat>)
    requires forall i :: 0 <= i < |ops| ==> InCells(ops[i], cells)
    ensures |readTs| == |ops| && (forall i :: 0 <= i < |ops| ==> |readTs[i]| == |ops[i]|)
    ensures InCells(Flatten(ops), cells)
    ensures Flatten(readTs) == ReadTs(Zeros(cells), Flatten(ops)) && auditTs == After(Zeros(cells), Flatten(ops))
  {
    hide Flatten, After, ReadTs;
    var audit := new nat[cells](_ => 0);
    readTs := [];
    assert audit[..] == Zeros(cells);
    FlattenNone(ops, Zeros(cells));
    for i := 0 to |ops|
      invariant |readTs| == i && forall j :: 0 <= j < i ==> |readTs[j]| == |ops[j]|
      invariant InCells(Flatten(ops[..i]), cells)
      invariant Flatten(readTs) == ReadTs(Zeros(cells), Flatten(ops[..i])) &&
                audit[..] == After(Zeros(cells), Flatten(ops[..i]))
    {
      var r := ReadInstance(audit, ops[i]);
      AfterConcat(Zeros(cells), Flatten(ops[..i]), ops[i]);
      assert ops[..i + 1] == ops[..i] + [ops[i]];
      FlattenSnoc(ops[..i], ops[i]);
      FlattenSnoc(readTs, r[..]);
      readTs := readTs + [r[..]];
    }
    assert ops[..|ops|] == ops;
    auditTs := audit[..];
  }

  lemma FlattenSnoc<T>(insts: seq<seq<T>>, inst: seq<T>)
    ensures Flatten(insts + [inst]) == Flatten(insts) + inst
  {
    assert (insts + [inst])[..|insts|] == insts;
  }

  lemma FlattenNone(ops: seq<seq<nat>>, ts: seq<nat>)
    ensures Flatten(ops[..0]) == [] && After(ts, []) == ts && ReadTs(ts, []) == []
  {
  }

  // ---------- the four multisets ----------

  function Init(mem: seq<int>): seq<Access> {
    seq(|mem|, i requires 0 <= i < |mem| => Access(i, mem[i], 0))
  }

  function Audit(mem: seq<int>, ts: seq<nat>): seq<Access>
    requires |ts| == |mem|
  {
    seq(|mem|, i requires 0 <= i < |mem| => Access(i, mem[i], ts[i]))
  }

  function Reads(addrs: seq<nat>, derefs: seq<int>, ts: seq<nat>): (r: seq<Access>)
    requires |addrs| == |derefs| == |ts|
    ensures |r| == |addrs|
  {
    seq(|addrs|, i requires 0 <= i < |addrs| => Access(addrs[i], derefs[i], ts[i]))
  }

  function Writes(addrs: seq<nat>, derefs: seq<int>, ts: seq<nat>): (r: seq<Access>)
    requires |addrs| == |derefs| == |ts|
    ensures |r| == |addrs|
  {
    seq(|addrs|, i requires 0 <= i < |addrs| => Access(addrs[i], derefs[i], ts[i] + 1))
  }

  /** init + writes. */
  ghost function WriteSet(mem: seq<int>, addrs: seq<nat>, derefs: seq<int>): multiset<Access>
    requires |addrs| == |derefs| && InCells(addrs, |mem|)
  {
    multiset(Init(mem)) + multiset(Writes(addrs, derefs, ReadTs(Zeros(|mem|), addrs)))
  }

  /** reads + audit. */
  ghost function ReadSet(mem: seq<int>, addrs: seq<nat>, derefs: seq<int>): multiset<Access>
    requires |addrs| == |derefs| && InCells(addrs, |mem|)
  {
    multiset(Reads(addrs, derefs, ReadTs(Zeros(|mem|), addrs))) + multiset(Audit(mem, After(Zeros(|mem|), addrs)))
  }

  predicate Honest(mem: seq<int>, addrs: seq<nat>, derefs: seq<int>)
    requires |addrs| == |derefs| && InCells(addrs, |mem|)
  {
    forall i :: 0 <= i < |addrs| ==> derefs[i] == mem[addrs[i]]
  }

  /** Replacing one entry of a sequence replaces it in the multiset. */
  lemma UpdateMultiset<T>(s: seq<T>, i: nat, x: T)
    requires i < |s|
    ensures multiset(s[i := x]) + multiset{s[i]} == multiset(s) + multiset{x}
  {
  }

  lemma {:induction false} HonestBalances(mem: seq<int>, addrs: seq<nat>, derefs: seq<int>)
    requires |addrs| == |derefs| && InCells(addrs, |mem|) && Honest(mem, addrs, derefs)
    ensures WriteSet(mem, addrs, derefs) == ReadSet(mem, addrs, derefs)
  {
    var z := Zeros(|mem|);
    if |addrs| == 0 {
      NoAccess(z);
      assert Init(mem) == Audit(mem, z);
    } else {
      hide After, ReadTs, Init, Audit;
      var n := |addrs| - 1;
      var a, v := addrs[n], derefs[n];
      HonestBalances(mem, addrs[..n], derefs[..n]);
      assert addrs == addrs[..n] + [a] && derefs == derefs[..n] + [v];
      AfterSnoc(z, addrs[..n], a);
      var ts, t := ReadTs(z, addrs[..n]), After(z, addrs[..n]);
      var w, r := Writes(addrs[..n], derefs[..n], ts), Reads(addrs[..n], derefs[..n], ts);
      assert Writes(addrs, derefs, ReadTs(z, addrs)) == w + [Access(a, v, t[a] + 1)];
      assert Reads(addrs, derefs, ReadTs(z, addrs)) == r + [Access(a, v, t[a])];
      AuditStep(mem, t, a);
      BalanceStep(multiset(Init(mem)), w, r, multiset(Audit(mem, t)), multiset(Audit(mem, After(z, addrs))),
                  Access(a, v, t[a] + 1), Access(a, v, t[a]));
    }
  }

  lemma AuditStep(mem: seq<int>, t: seq<nat>, a: nat)
    requires |t| == |mem| && a < |mem|
    ensures multiset(Audit(mem, t[a := t[a] + 1])) + multiset{Access(a, mem[a], t[a])}
         == multiset(Audit(mem, t)) + multiset{Access(a, mem[a], t[a] + 1)}
  {
    var x := Access(a, mem[a], t[a] + 1);
    assert Audit(mem, t[a := t[a] + 1]) == Audit(mem, t)[a := x];
    UpdateMultiset(Audit(mem, t), a, x);
  }

  lemma BalanceStep(init: multiset<Access>, w: seq<Access>, r: seq<Access>, audit: multiset<Access>,
                    audit': multiset<Access>, x: Access, y: Access)
    requires init + multiset(w) == multiset(r) + audit && audit' + multiset{y} == audit + multiset{x}
    ensures init + multiset(w + [x]) == multiset(r + [y]) + audit'
  {
    var mw, mr := multiset(w), multiset(r);
    assert multiset(w + [x]) == mw + multiset{x} && multiset(r + [y]) == mr + multiset{y};
    assert init + (mw + multiset{x}) == (init + mw) + multiset{x};
    assert (mr + audit) + multiset{x} == mr + (audit + multiset{x});
    assert (mr + multiset{y}) + audit' == mr + (audit' + multiset{y});
  }

  // ---------- a dishonest value unbalances the sets ----------

  /** Counters never go down, and an access raises its own. */
  lemma {:induction false} CountersGrow(ts: seq<nat>, addrs: seq<nat>, i: nat, j: nat)
    requires InCells(addrs, |ts|) && i < j < |addrs| && addrs[i] == addrs[j]
    ensures ReadTs(ts, addrs)[i] < ReadTs(ts, addrs)[j]
  {
    ReadTsAt(ts, addrs, i);
    ReadTsAt(ts, addrs, j);
    CounterAfter(ts, addrs, i, j, addrs[i]);
  }

  lemma {:induction false} ReadTsAt(ts: seq<nat>, addrs: seq<nat>, i: nat)
    requires i < |addrs|
    ensures ReadTs(ts, addrs)[i] == Counter(After(ts, addrs[..i]), addrs[i])
  {
    var n := |addrs| - 1;
    if i >= n {
    } else {
      ReadTsAt(ts, addrs[..n], i);
      assert addrs[..n][..i] == addrs[..i];
    }
  }

  lemma {:induction false} CounterAfter(ts: seq<nat>, addrs: seq<nat>, i: nat, j: nat, a: nat)
    requires InCells(addrs, |ts|) && i < j <= |addrs| && addrs[i] == a
    ensures After(ts, addrs[..i])[a] < After(ts, addrs[..j])[a]
  {
    assert addrs[..j][..j - 1] == addrs[..j - 1];
    if i >= j - 1 {
    } else {
      CounterAfter(ts, addrs, i, j - 1, a);
    }
  }

  /** The first wrong value is read but never written. */
  lemma WrongValueUnbalanced(mem: seq<int>, addrs: seq<nat>, derefs: seq<int>, i: nat)
    requires |addrs| == |derefs| && InCells(addrs, |mem|) && i < |addrs| && derefs[i] != mem[addrs[i]]
    requires forall j :: 0 <= j < i ==> derefs[j] == mem[addrs[j]]
    ensures WriteSet(mem, addrs, derefs) != ReadSet(mem, addrs, derefs)
  {
    var ts := ReadTs(Zeros(|mem|), addrs);
    var x := Access(addrs[i], derefs[i], ts[i]);
    assert Reads(addrs, derefs, ts)[i] == x;
    assert x in ReadSet(mem, addrs, derefs);
    forall k | 0 <= k < |mem| ensures Init(mem)[k] != x {
    }
    var w := Writes(addrs, derefs, ts);
    forall j | 0 <= j < |addrs| ensures w[j] != x {
      if addrs[j] == addrs[i] && ts[j] + 1 == ts[i] && i < j {
        CountersGrow(Zeros(|mem|), addrs, i, j);
      }
    }
    assert x !in multiset(Init(mem)) && x !in multiset(w);
  }

  lemma {:induction false} FirstWrong(mem: seq<int>, addrs: seq<nat>, derefs: seq<int>, n: nat) returns (i: nat)
    requires |addrs| == |derefs| && InCells(addrs, |mem|) && n <= |addrs|
    requires exists j :: 0 <= j < n && derefs[j] != mem[addrs[j]]
    ensures i < n && derefs[i] != mem[addrs[i]] && forall j :: 0 <= j < i ==> derefs[j] == mem[addrs[j]]
  {
    if forall j :: 0 <= j < n - 1 ==> derefs[j] == mem[addrs[j]] {
      i := n - 1;
    } else {
      i := FirstWrong(mem, addrs, derefs, n - 1);
    }
  }

  /** The check is exact: the sets balance if and only if every read returned its cell's value. */
  lemma CheckIsExact(mem: seq<int>, addrs: seq<nat>, derefs: seq<int>)
    requires |addrs| == |derefs| && InCells(addrs, |mem|)
    ensures WriteSet(mem, addrs, derefs) == ReadSet(mem, addrs, derefs) <==> Honest(mem, addrs, derefs)
  {
    if Honest(mem, addrs, derefs) {
      HonestBalances(mem, addrs, derefs);
    } else {
      var i := FirstWrong(mem, addrs, derefs, |addrs|);
      WrongValueUnbalanced(mem, addrs, derefs, i);
    }
  }

  // ---------- hashing ----------

  /** ts * g^2 + val * g + addr - t */
  function Hash(x: Access, g: int, t: int, p: Modulus): (h: int)
    ensures Canonical(h, p)
  {
    Mod(x.ts * (g * g) + x.val * g + x.addr - t, p)
  }

  function HashAll(xs: seq<Access>, g: int, t: int, p: Modulus): (h: seq<int>)
    ensures |h| == |xs| && CanonicalV(h, p)
  {
    seq(|xs|, i requires 0 <= i < |xs| => Hash(xs[i], g, t, p))
  }

  lemma {:induction false} ProdRemove(a: seq<int>, i: nat)
    requires i < |a|
    ensures Prod(a) == a[i] * Prod(a[..i] + a[i + 1..])
  {
    var n := |a| - 1;
    if i == n {
      assert a[..i] + a[i + 1..] == a[..n];
    } else {
      ProdRemove(a[..n], i);
      var rest := a[..i] + a[i + 1..];
      assert rest[..|rest| - 1] == a[..n][..i] + a[..n][i + 1..] && rest[|rest| - 1] == a[n];
      Rotate(a[i], Prod(a[..n][..i] + a[..n][i + 1..]), a[n]);
    }
  }

  lemma Rotate(x: int, y: int, z: int)
    ensures (x * y) * z == x * (y * z)
  {
  }

  lemma IndexOf<T>(xs: seq<T>, x: T) returns (i: nat)
    requires x in multiset(xs)
    ensures i < |xs| && xs[i] == x
  {
    assert x in xs;
    i :| 0 <= i < |xs| && xs[i] == x;
  }

  /** Take the last element of xs out of both sequences. */
  lemma RemoveLast(xs: seq<Access>, ys: seq<Access>) returns (i: nat)
    requires multiset(xs) == multiset(ys) && |xs| > 0
    ensures i < |ys| && ys[i] == xs[|xs| - 1] && multiset(xs[..|xs| - 1]) == multiset(ys[..i] + ys[i + 1..])
  {
    var n := |xs| - 1;
    assert xs == xs[..n] + [xs[n]];
    i := IndexOf(ys, xs[n]);
    assert ys == ys[..i] + [ys[i]] + ys[i + 1..];
    CancelOne(multiset(xs[..n]), multiset(ys[..i] + ys[i + 1..]), xs[n]);
  }

  lemma CancelOne<T>(a: multiset<T>, b: multiset<T>, x: T)
    requires a + multiset{x} == b + multiset{x}
    ensures a == b
  {
    forall y ensures a[y] == b[y] {
      assert (a + multiset{x})[y] == (b + multiset{x})[y];
    }
  }

  /** Sequences with the same elements have the same product of hashes. */
  lemma {:induction false} SameElementsSameProduct(xs: seq<Access>, ys: seq<Access>, g: int, t: int, p: Modulus)
    requires multiset(xs) == multiset(ys)
    ensures Prod(HashAll(xs, g, t, p)) == Prod(HashAll(ys, g, t, p))
    decreases |xs|
  {
    if |xs| == 0 {
      assert |multiset(xs)| == |multiset(ys)| == |ys|;
    } else {
      var n := |xs| - 1;
      var i := RemoveLast(xs, ys);
      SameElementsSameProduct(xs[..n], ys[..i] + ys[i + 1..], g, t, p);
      RemoveHash(ys, i, g, t, p);
      RemoveHash(xs, n, g, t, p);
      assert xs[..n] + xs[n + 1..] == xs[..n];
      assert HashAll(ys, g, t, p)[i] == HashAll(xs, g, t, p)[n];
    }
  }

  lemma RemoveHash(ys: seq<Access>, i: nat, g: int, t: int, p: Modulus)
    requires i < |ys|
    ensures Prod(HashAll(ys, g, t, p)) == HashAll(ys, g, t, p)[i] * Prod(HashAll(ys[..i] + ys[i + 1..], g, t, p))
  {
    hide Hash, Prod;
    var h := HashAll(ys, g, t, p);
    ProdRemove(h, i);
    assert h[..i] + h[i + 1..] == HashAll(ys[..i] + ys[i + 1..], g, t, p);
  }

  /** For honest reads the prover's equality of hashed products holds for every hash key. */
  lemma HonestProductsAgree(mem: seq<int>, addrs: seq<nat>, derefs: seq<int>, g: int, t: int, p: Modulus)
    requires |addrs| == |derefs| && InCells(addrs, |mem|) && Honest(mem, addrs, derefs)
    ensures var ts := ReadTs(Zeros(|mem|), addrs);
      Prod(HashAll(Init(mem), g, t, p)) * Prod(HashAll(Writes(addrs, derefs, ts), g, t, p))
      == Prod(HashAll(Reads(addrs, derefs, ts), g, t, p)) *
         Prod(HashAll(Audit(mem, After(Zeros(|mem|), addrs)), g, t, p))
  {
    hide HashAll, Prod, Init, Writes, Reads, Audit, After, ReadTs;
    var ts := ReadTs(Zeros(|mem|), addrs);
    var i, w, r, a := Init(mem), Writes(addrs, derefs, ts), Reads(addrs, derefs, ts),
                      Audit(mem, After(Zeros(|mem|), addrs));
    HonestBalances(mem, addrs, derefs);
    assert multiset(i + w) == multiset(r + a);
    SameElementsSameProduct(i + w, r + a, g, t, p);
    HashJoin(i, w, g, t, p);
    HashJoin(r, a, g, t, p);
  }

  lemma HashJoin(xs: seq<Access>, ys: seq<Access>, g: int, t: int, p: Modulus)
    ensures Prod(HashAll(xs + ys, g, t, p)) == Prod(HashAll(xs, g, t, p)) * Prod(HashAll(ys, g, t, p))
  {
    hide Hash, Prod;
    assert HashAll(xs + ys, g, t, p) == HashAll(xs, g, t, p) + HashAll(ys, g, t, p);
    ProdConcat(HashAll(xs, g, t, p), HashAll(ys, g, t, p));
  }

  // ---------- the prover's check, instance by instance ----------

  /** The values an honest dereference returns. */
  function Deref(mem: seq<int>, addrs: seq<nat>): (v: seq<int>)
    requires InCells(addrs, |mem|)
    ensures |v| == |addrs|
  {
    seq(|addrs|, i requires 0 <= i < |addrs| => mem[addrs[i]])
  }

  /** One instance of a batch: addresses, values and read timestamps. */
  datatype Instance = Instance(addrs: seq<nat>, derefs: seq<int>, ts: seq<nat>)

  predicate Aligned(insts: seq<Instance>) {
    forall i :: 0 <= i < |insts| ==> |insts[i].addrs| == |insts[i].derefs| == |insts[i].ts|
  }

  function ReadTables(insts: seq<Instance>, g: int, t: int, p: Modulus): (r: seq<seq<int>>)
    requires Aligned(insts)
    ensures |r| == |insts|
  {
    seq(|insts|, i requires 0 <= i < |insts| => HashAll(Reads(insts[i].addrs, insts[i].derefs, insts[i].ts), g, t, p))
  }

  function WriteTables(insts: seq<Instance>, g: int, t: int, p: Modulus): (r: seq<seq<int>>)
    requires Aligned(insts)
    ensures |r| == |insts|
  {
    seq(|insts|, i requires 0 <= i < |insts| => HashAll(Writes(insts[i].addrs, insts[i].derefs, insts[i].ts), g, t, p))
  }

  /** The hashed table of one instance, computed entry by entry. */
  method BuildHashLayer(inst: Instance, g: int, t: int, p: Modulus) returns (readHash: seq<int>, writeHash: seq<int>)
    requires |inst.addrs| == |inst.derefs| == |inst.ts|
    ensures readHash == HashAll(Reads(inst.addrs, inst.derefs, inst.ts), g, t, p)
    ensures writeHash == HashAll(Writes(inst.addrs, inst.derefs, inst.ts), g, t, p)
  {
    hide Mod;
    readHash, writeHash := [], [];
    var square := Mod(g * g, p);
    for i := 0 to |inst.addrs|
      invariant readHash == HashAll(Reads(inst.addrs, inst.derefs, inst.ts), g, t, p)[..i]
      invariant writeHash == HashAll(Writes(inst.addrs, inst.derefs, inst.ts), g, t, p)[..i]
    {
      var a, v, ts := inst.addrs[i], inst.derefs[i], inst.ts[i];
      HashSquare(Access(a, v, ts), g, t, p);
      HashSquare(Access(a, v, ts + 1), g, t, p);
      readHash := readHash + [Mod(ts * square + v * g + a - t, p)];
      writeHash := writeHash + [Mod((ts + 1) * square + v * g + a - t, p)];
    }
  }

  lemma HashSquare(x: Access, g: int, t: int, p: Modulus)
    ensures Mod(x.ts * Mod(g * g, p) + x.val * g + x.addr - t, p) == Hash(x, g, t, p)
  {
    hide Mod;
    ModCong(g * g, p);
    CongScale(x.ts, Mod(g * g, p), g * g, p);
    var rest := x.val * g + x.addr - t;
    CongSum(x.ts * Mod(g * g, p) + x.val * g + x.addr - t, x.ts * (g * g) + x.val * g + x.addr - t,
            x.ts * Mod(g * g, p), x.ts * (g * g), rest, rest, p);
  }

  /** The product over the instances of their circuits' roots. */
  function RootProduct(tables: seq<seq<int>>, p: Modulus): (r: int)
  {
    if |tables| == 0 then 1 else Mod(RootProduct(tables[..|tables| - 1], p) * Mod(Prod(tables[|tables| - 1]), p), p)
  }

  lemma {:induction false} RootProductIs(tables: seq<seq<int>>, p: Modulus)
    ensures Cong(RootProduct(tables, p), Prod(Flatten(tables)), p)
  {
    if |tables| == 0 {
    } else {
      hide Mod, Prod;
      var n := |tables| - 1;
      RootProductIs(tables[..n], p);
      ProdConcat(Flatten(tables[..n]), tables[n]);
      var x, y := RootProduct(tables[..n], p), Mod(Prod(tables[n]), p);
      ModCong(Prod(tables[n]), p);
      CongMul(x, Prod(Flatten(tables[..n])), y, Prod(tables[n]), p);
      ModCong(x * y, p);
    }
  }

  function AllAddrs(insts: seq<Instance>): (r: seq<seq<nat>>)
    ensures |r| == |insts|
  {
    seq(|insts|, i requires 0 <= i < |insts| => insts[i].addrs)
  }

  function AllDerefs(insts: seq<Instance>): (r: seq<seq<int>>)
    ensures |r| == |insts|
  {
    seq(|insts|, i requires 0 <= i < |insts| => insts[i].derefs)
  }

  function AllTs(insts: seq<Instance>): (r: seq<seq<nat>>)
    ensures |r| == |insts|
  {
    seq(|insts|, i requires 0 <= i < |insts| => insts[i].ts)
  }

  /** Hashing instance by instance is hashing the whole batch. */
  lemma {:induction false} TablesFlatten(insts: seq<Instance>, g: int, t: int, p: Modulus)
    requires Aligned(insts)
    ensures var a, d, ts := Flatten(AllAddrs(insts)), Flatten(AllDerefs(insts)), Flatten(AllTs(insts));
      |a| == |d| == |ts| &&
      Flatten(ReadTables(insts, g, t, p)) == HashAll(Reads(a, d, ts), g, t, p) &&
      Flatten(WriteTables(insts, g, t, p)) == HashAll(Writes(a, d, ts), g, t, p)
  {
    hide Hash, HashAll, Reads, Writes;
    if |insts| == 0 {
      NoTables(g, t, p);
    } else {
      var n := |insts| - 1;
      TablesFlatten(insts[..n], g, t, p);
      assert AllAddrs(insts)[..n] == AllAddrs(insts[..n]) && AllDerefs(insts)[..n] == AllDerefs(insts[..n]) &&
             AllTs(insts)[..n] == AllTs(insts[..n]);
      assert ReadTables(insts, g, t, p)[..n] == ReadTables(insts[..n], g, t, p);
      assert WriteTables(insts, g, t, p)[..n] == WriteTables(insts[..n], g, t, p);
      HashConcat(Flatten(AllAddrs(insts[..n])), Flatten(AllDerefs(insts[..n])), Flatten(AllTs(insts[..n])), insts[n],
                 g, t, p);
    }
  }

  lemma NoTables(g: int, t: int, p: Modulus)
    ensures HashAll(Reads([], [], []), g, t, p) == [] && HashAll(Writes([], [], []), g, t, p) == []
  {
  }

  lemma HashConcat(a: seq<nat>, d: seq<int>, ts: seq<nat>, x: Instance, g: int, t: int, p: Modulus)
    requires |a| == |d| == |ts| && |x.addrs| == |x.derefs| == |x.ts|
    ensures HashAll(Reads(a + x.addrs, d + x.derefs, ts + x.ts), g, t, p)
         == HashAll(Reads(a, d, ts), g, t, p) + HashAll(Reads(x.addrs, x.derefs, x.ts), g, t, p)
    ensures HashAll(Writes(a + x.addrs, d + x.derefs, ts + x.ts), g, t, p)
         == HashAll(Writes(a, d, ts), g, t, p) + HashAll(Writes(x.addrs, x.derefs, x.ts), g, t, p)
  {
    hide Hash;
  }

  /** With the timestamps of the batch and honest values, the prover's assertion on the hashed products never fires. */
  lemma ProverCheckPasses(mem: seq<int>, insts: seq<Instance>, g: int, t: int, p: Modulus)
    requires Aligned(insts) && InCells(Flatten(AllAddrs(insts)), |mem|)
    requires Flatten(AllTs(insts)) == ReadTs(Zeros(|mem|), Flatten(AllAddrs(insts)))
    requires Flatten(AllDerefs(insts)) == Deref(mem, Flatten(AllAddrs(insts)))
    ensures var audit := After(Zeros(|mem|), Flatten(AllAddrs(insts)));
      Mod(Mod(Prod(HashAll(Init(mem), g, t, p)), p) * RootProduct(WriteTables(insts, g, t, p), p), p)
      == Mod(RootProduct(ReadTables(insts, g, t, p), p) * Mod(Prod(HashAll(Audit(mem, audit), g, t, p)), p), p)
  {
    hide Mod, Hash, Prod, RootProduct, Flatten, After, ReadTs, HashAll, Init, Audit;
    var a, d := Flatten(AllAddrs(insts)), Flatten(AllDerefs(insts));
    var rt, wt := ReadTables(insts, g, t, p), WriteTables(insts, g, t, p);
    TablesFlatten(insts, g, t, p);
    HonestProductsAgree(mem, a, d, g, t, p);
    RootProductIs(rt, p);
    RootProductIs(wt, p);
    var i, u := Prod(HashAll(Init(mem), g, t, p)), Prod(HashAll(Audit(mem, After(Zeros(|mem|), a)), g, t, p));
    var w, r := Prod(Flatten(wt)), Prod(Flatten(rt));
    ModCong(i, p);
    ModCong(u, p);
    CongMul(Mod(i, p), i, RootProduct(wt, p), w, p);
    CongMul(RootProduct(rt, p), r, Mod(u, p), u, p);
    CongSame(Mod(i, p) * RootProduct(wt, p), i * w, Mod(i, p) * RootProduct(wt, p), r * u, p);
  }
}
