/**
  The shift-add multiplier, for every operand width. Proved: under 32-bit wraparound the
  derivation passes all three obligations for every width up to 32 and every pair of operands,
  runs exactly as many iterations as the operands have bits, and loses no bit in registers of
  twice the width; hence the scheduled circuit multiplies modulo 2^32, up to width 16 exactly.
  */
module Multiplier {
  import opened Expressions
  import opened Domain
  import opened Kernel
  import opened Simulator
  import opened Handshake
  import opened Runs

  const A: Name := "a"
  const B: Name := "b"
  const PRODUCT: Name := "product"
  const MCAND: Name := "mcand"
  const MPLIER: Name := "mplier"
  const COUNT: Name := "count"

  function LowBit(): Expr {
    Bin(Eq, Bin(Mod, Var(MPLIER), Const(2)), Const(1))
  }

  function Regs(n: nat): seq<LoopReg> {
    [ LoopReg(PRODUCT, Const(0), [(LowBit(), Bin(Add, Var(PRODUCT), Var(MCAND)))], Var(PRODUCT)),
      LoopReg(MCAND, Var(A), [], Bin(Mul, Var(MCAND), Const(2))),
      LoopReg(MPLIER, Var(B), [], Bin(Div, Var(MPLIER), Const(2))),
      LoopReg(COUNT, Const(n), [], Bin(Sub, Var(COUNT), Const(1))) ]
  }

  function Guard(): Expr {
    Bin(Gt, Var(COUNT), Const(0))
  }

  function Times(): Expr {
    Bin(Mul, Var(A), Var(B))
  }

  function MulMachine(n: nat): Machine {
    Machine("state", "done", "start", Regs(n), Guard())
  }

  function MulDerivation(n: nat): Derivation {
    Derivation(
      Bin(Eq, Var(PRODUCT), Times()),
      Bin(Eq, Bin(Add, Var(PRODUCT), Bin(Mul, Var(MPLIER), Var(MCAND))), Times()),
      Var(COUNT),
      Guard(),
      [(PRODUCT, Const(0)), (MCAND, Var(A)), (MPLIER, Var(B)), (COUNT, Const(n))],
      BodyUpdates(MulMachine(n)),
      [(PRODUCT, Var(PRODUCT))],
      [(A, n), (B, n)])
  }

  // ---------------------------------------------------------------------------
  // The loop as numbers
  // ---------------------------------------------------------------------------

  datatype Nums = Nums(p: nat, m: nat, q: nat, c: nat)

  function StepNums(s: Nums): Nums
    requires s.c > 0
  {
    Nums(if s.q % 2 == 1 then Wrap(s.p + s.m) else s.p, Wrap(s.m * 2), Wrap(s.q / 2), s.c - 1)
  }

  function NumsAt(n: nat, a: nat, b: nat, k: nat): Nums
    requires k <= n
    ensures NumsAt(n, a, b, k).c == n - k
  {
    if k == 0 then Nums(0, a, b, n) else StepNums(NumsAt(n, a, b, k - 1))
  }

  lemma ModShift(z: int, k: int)
    ensures (z + TWO32 * k) % TWO32 == z % TWO32
  {
  }

  lemma WrapSum(x: nat, h: nat, y: nat)
    ensures Wrap(Wrap(x) + h * Wrap(y)) == Wrap(x + h * y)
  {
    var i, j := x / TWO32, y / TWO32;
    assert y == TWO32 * j + Wrap(y) && x == TWO32 * i + Wrap(x);
    assert h * y == h * (TWO32 * j + Wrap(y)) == TWO32 * (h * j) + h * Wrap(y);
    ModShift(Wrap(x) + h * Wrap(y), i + h * j);
  }

  lemma Halves(q: nat, m: nat)
    ensures q * m == (q % 2) * m + (q / 2) * (m * 2)
  {
    assert q == 2 * (q / 2) + q % 2;
    assert q * m == (2 * (q / 2)) * m + (q % 2) * m;
  }

  /** One step keeps product + multiplier * multiplicand modulo 2^32. */
  lemma StepKeepsSum(s: Nums)
    requires s.c > 0 && s.p < TWO32 && s.q < TWO32
    ensures var t := StepNums(s); Wrap(t.p + t.q * t.m) == Wrap(s.p + s.q * s.m)
    ensures StepNums(s).q == s.q / 2 && StepNums(s).p < TWO32
  {
    StepShape(s);
    Halves(s.q, s.m);
    WrapSum(s.p + (s.q % 2) * s.m, s.q / 2, s.m * 2);
  }

  lemma StepShape(s: Nums)
    requires s.c > 0 && s.p < TWO32 && s.q < TWO32
    ensures var t := StepNums(s);
      t.p == Wrap(s.p + (s.q % 2) * s.m) && t.m == Wrap(s.m * 2) && t.q == s.q / 2 && t.p < TWO32
  {
    assert (s.q % 2) * s.m == if s.q % 2 == 1 then s.m else 0;
  }

  lemma {:induction false} NumsInvariant(n: nat, a: nat, b: nat, k: nat)
    requires k <= n <= 32 && a < Pow2(n) && b < Pow2(n)
    ensures var s := NumsAt(n, a, b, k);
      && Wrap(s.p + s.q * s.m) == Wrap(a * b)
      && s.q < Pow2(n - k) && s.p < TWO32 && s.q < TWO32
  {
    if k == 0 {
      assert b * a == a * b;
      Pow2UpTo32(n);
    } else {
      NumsInvariant(n, a, b, k - 1);
      StepKeepsSum(NumsAt(n, a, b, k - 1));
      Pow2Doubles(n - k);
    }
  }

  lemma Pow2Doubles(e: nat)
    ensures Pow2(e + 1) == 2 * Pow2(e)
  {
  }

  lemma {:induction false} Pow2UpTo32(n: nat)
    requires n <= 32
    ensures Pow2(n) <= TWO32
    decreases 32 - n
  {
    if n == 32 {
      Pow2Is32();
    } else {
      Pow2UpTo32(n + 1);
    }
  }

  lemma Pow2Is32()
    ensures Pow2(32) == TWO32
  {
    assert Pow2(4) == 16;
    assert Pow2(8) == 16 * Pow2(4);
    assert Pow2(12) == 16 * Pow2(8);
    assert Pow2(16) == 16 * Pow2(12);
    assert Pow2(20) == 16 * Pow2(16);
    assert Pow2(24) == 16 * Pow2(20);
    assert Pow2(28) == 16 * Pow2(24);
    assert Pow2(32) == 16 * Pow2(28);
  }

  // ---------------------------------------------------------------------------
  // The loop states hold these numbers
  // ---------------------------------------------------------------------------

  ghost predicate HoldsNums(env: Env, a: nat, b: nat, s: Nums) {
    && Lookup(env, A) == V(a) && Lookup(env, B) == V(b)
    && Lookup(env, PRODUCT) == V(s.p) && Lookup(env, MCAND) == V(s.m)
    && Lookup(env, MPLIER) == V(s.q) && Lookup(env, COUNT) == V(s.c)
  }

  lemma NamesDiffer()
    ensures |PRODUCT| == 7 && |MCAND| == 5 && |MPLIER| == 6 && |COUNT| == 5 && |A| == 1 && |B| == 1
    ensures MCAND != COUNT && A != B
  {
    assert MCAND[0] == 'm' && COUNT[0] == 'c';
    assert A[0] == 'a' && B[0] == 'b';
  }

  lemma MulBody(n: nat)
    ensures BodyUpdates(MulMachine(n)) == [
      (PRODUCT, Ite(LowBit(), Bin(Add, Var(PRODUCT), Var(MCAND)), Var(PRODUCT))),
      (MCAND, Bin(Mul, Var(MCAND), Const(2))),
      (MPLIER, Bin(Div, Var(MPLIER), Const(2))),
      (COUNT, Bin(Sub, Var(COUNT), Const(1)))]
    ensures DistinctTargets(BodyUpdates(MulMachine(n)))
  {
    NamesDiffer();
    var r := Regs(n);
    assert BodyOf(r[0]) == Ite(LowBit(), Bin(Add, Var(PRODUCT), Var(MCAND)), Fold([], Var(PRODUCT))) by {
      assert r[0].pairs[1..] == [];
    }
  }

  lemma LandFour(env: Env, us: Updates)
    requires |us| == 4
    ensures Simultaneous(env, us) ==
      env[us[0].0 := Scalar(Eval(us[0].1, env))]
         [us[1].0 := Scalar(Eval(us[1].1, env))]
         [us[2].0 := Scalar(Eval(us[2].1, env))]
         [us[3].0 := Scalar(Eval(us[3].1, env))]
  {
    var e1 := env[us[0].0 := Scalar(Eval(us[0].1, env))];
    var e2 := e1[us[1].0 := Scalar(Eval(us[1].1, env))];
    var e3 := e2[us[2].0 := Scalar(Eval(us[2].1, env))];
    var e4 := e3[us[3].0 := Scalar(Eval(us[3].1, env))];
    assert us[1..][1..] == us[2..] && us[2..][1..] == us[3..] && us[3..][1..] == [];
    assert Land(e4, env, []) == e4;
    assert Land(e3, env, us[3..]) == e4;
    assert Land(e2, env, us[2..]) == e4;
    assert Land(e1, env, us[1..]) == e4;
  }

  /** What each assignment of the body computes. */
  lemma BodyValues(env: Env, a: nat, b: nat, s: Nums)
    requires HoldsNums(env, a, b, s) && 0 < s.c < TWO32
    ensures var t := StepNums(s);
      && Eval(Ite(LowBit(), Bin(Add, Var(PRODUCT), Var(MCAND)), Var(PRODUCT)), env) == V(t.p)
      && Eval(Bin(Mul, Var(MCAND), Const(2)), env) == V(t.m)
      && Eval(Bin(Div, Var(MPLIER), Const(2)), env) == V(t.q)
      && Eval(Bin(Sub, Var(COUNT), Const(1)), env) == V(t.c)
  {
    assert Eval(Bin(Mod, Var(MPLIER), Const(2)), env) == V(s.q % 2);
    assert Eval(LowBit(), env) == Truth(s.q % 2 == 1);
    assert Wrap(s.c - 1) == s.c - 1;
  }

  lemma BodyStepsNums(n: nat, env: Env, a: nat, b: nat, s: Nums)
    requires HoldsNums(env, a, b, s) && 0 < s.c < TWO32
    ensures HoldsNums(Simultaneous(env, MulDerivation(n).body), a, b, StepNums(s))
  {
    MulBody(n);
    BodyValues(env, a, b, s);
    LandFour(env, MulDerivation(n).body);
    NamesDiffer();
  }

  lemma EntryHoldsNums(n: nat, v: Row)
    requires |v| == 2
    ensures HoldsNums(Entry(MulDerivation(n), v), v[0], v[1], Nums(0, v[0], v[1], n))
  {
    var d := MulDerivation(n);
    NamesDiffer();
    assert d.inputs[..1] == [(A, n)] && d.inputs[..1][..0] == [];
    var e0 := InputEnv(d.inputs, v);
    assert InputEnv(d.inputs[..1], v[..1]) == map[A := Scalar(V(v[0]))];
    assert e0 == map[A := Scalar(V(v[0])), B := Scalar(V(v[1]))];
    var us := d.init;
    assert us[1..] == [(MCAND, Var(A)), (MPLIER, Var(B)), (COUNT, Const(n))];
    assert us[1..][1..] == [(MPLIER, Var(B)), (COUNT, Const(n))];
    assert us[1..][1..][1..] == [(COUNT, Const(n))];
    var e1 := e0[PRODUCT := Scalar(V(0))];
    var e2 := e1[MCAND := Scalar(V(v[0]))];
    var e3 := e2[MPLIER := Scalar(V(v[1]))];
    var e4 := e3[COUNT := Scalar(V(n))];
    assert Sequential(e3, us[1..][1..][1..]) == e4;
    assert Sequential(e2, us[1..][1..]) == e4;
    assert Sequential(e1, us[1..]) == e4;
    assert Sequential(e0, us) == e4;
  }

  lemma {:induction false} LoopHoldsNums(n: nat, v: Row, k: nat)
    requires |v| == 2 && k <= n <= 32
    ensures HoldsNums(LoopState(MulDerivation(n), v, k), v[0], v[1], NumsAt(n, v[0], v[1], k))
  {
    if k == 0 {
      EntryHoldsNums(n, v);
    } else {
      LoopHoldsNums(n, v, k - 1);
      BodyStepsNums(n, LoopState(MulDerivation(n), v, k - 1), v[0], v[1], NumsAt(n, v[0], v[1], k - 1));
    }
  }

  lemma MulBox(n: nat, v: Row)
    requires InBox(v, MulDerivation(n).Sizes())
    ensures |v| == 2 && v[0] < Pow2(n) && v[1] < Pow2(n)
  {
  }

  /** The invariant compares wrapped sums. */
  lemma InvValue(env: Env, a: nat, b: nat, s: Nums)
    requires HoldsNums(env, a, b, s)
    ensures Eval(Bin(Add, Var(PRODUCT), Bin(Mul, Var(MPLIER), Var(MCAND))), env) == V(Wrap(s.p + s.q * s.m))
    ensures Eval(Times(), env) == V(Wrap(a * b))
  {
    var prod := Bin(Mul, Var(MPLIER), Var(MCAND));
    assert Eval(prod, env) == V(Wrap(s.q * s.m));
    SumWrap(s.p, s.q * s.m);
  }

  lemma MappingKeeps(n: nat, env: Env, a: nat, b: nat, s: Nums)
    requires HoldsNums(env, a, b, s)
    ensures HoldsNums(Simultaneous(env, MulDerivation(n).mapping), a, b, s)
  {
    var us := MulDerivation(n).mapping;
    var out := env[PRODUCT := Scalar(V(s.p))];
    NamesDiffer();
    assert us[1..] == [];
    assert Land(out, env, us[1..]) == out;
  }

  lemma CountValue(env: Env, a: nat, b: nat, s: Nums)
    requires HoldsNums(env, a, b, s)
    ensures Holds(Guard(), env) <==> s.c > 0
    ensures Eval(Var(COUNT), env) == V(s.c)
  {
    assert Eval(Guard(), env) == Truth(s.c > 0);
  }

  lemma InvHolds(n: nat, env: Env, a: nat, b: nat, s: Nums)
    requires HoldsNums(env, a, b, s) && Wrap(s.p + s.q * s.m) == Wrap(a * b)
    ensures Holds(MulDerivation(n).inv, env)
  {
    InvValue(env, a, b, s);
  }

  lemma PostHolds(n: nat, env: Env, a: nat, b: nat, s: Nums)
    requires HoldsNums(env, a, b, s) && s.p == Wrap(a * b)
    ensures Holds(MulDerivation(n).post, Simultaneous(env, MulDerivation(n).mapping))
  {
    MappingKeeps(n, env, a, b, s);
    InvValue(Simultaneous(env, MulDerivation(n).mapping), a, b, s);
  }

  lemma SumWrap(x: nat, y: nat)
    ensures Wrap(x + Wrap(y)) == Wrap(x + y)
  {
    var j := y / TWO32;
    assert y == TWO32 * j + Wrap(y);
    ModShift(x + Wrap(y), j);
  }

  /** Guard, invariant and variant at one loop state, read off the numbers. */
  lemma MulAt(n: nat, v: Row, j: nat)
    requires j <= n <= 32 && InBox(v, MulDerivation(n).Sizes())
    ensures |v| == 2
    ensures var d, env := MulDerivation(n), LoopState(MulDerivation(n), v, j);
      && (Holds(d.guard, env) <==> j < n)
      && Holds(d.inv, env)
      && Eval(d.variant, env) == V(n - j)
  {
    MulBox(n, v);
    LoopHoldsNums(n, v, j);
    NumsInvariant(n, v[0], v[1], j);
    CountValue(LoopState(MulDerivation(n), v, j), v[0], v[1], NumsAt(n, v[0], v[1], j));
    InvHolds(n, LoopState(MulDerivation(n), v, j), v[0], v[1], NumsAt(n, v[0], v[1], j));
  }

  lemma MulPost(n: nat, v: Row)
    requires n <= 32 && InBox(v, MulDerivation(n).Sizes())
    ensures |v| == 2 && Holds(MulDerivation(n).post, ExitBinding(MulDerivation(n), v, n))
  {
    MulBox(n, v);
    LoopHoldsNums(n, v, n);
    LastNums(n, v[0], v[1]);
    PostHolds(n, LoopState(MulDerivation(n), v, n), v[0], v[1], NumsAt(n, v[0], v[1], n));
  }

  /** The loop of every operand pair runs exactly `n` times and is correct. */
  lemma MulCorrect(n: nat, v: Row)
    requires n <= 32 && InBox(v, MulDerivation(n).Sizes())
    ensures CorrectIn(MulDerivation(n), v, n)
    ensures forall k: nat | CorrectIn(MulDerivation(n), v, k) :: k == n
  {
    var d := MulDerivation(n);
    forall j | 0 <= j <= n
      ensures Holds(d.guard, LoopState(d, v, j)) <==> j < n
      ensures Holds(d.inv, LoopState(d, v, j))
      ensures Eval(d.variant, LoopState(d, v, j)) == V(n - j)
    {
      MulAt(n, v, j);
    }
    MulPost(n, v);
    forall k: nat | CorrectIn(d, v, k)
      ensures k == n
    {
      RunsOnce(d, v, k, n);
    }
  }

  /** For every width up to 32 and both enumeration modes the kernel accepts the derivation. */
  lemma MulDischarges(n: nat, threshold: nat, max: nat)
    requires n <= 32 && n <= max
    ensures Discharge(MulDerivation(n), threshold, max).ok
  {
    var d := MulDerivation(n);
    ValuationsFit(d, threshold);
    VerdictMeaning(d, threshold, max);
    forall v | v in Valuations(d.Sizes(), threshold)
      ensures |v| == |d.inputs| && Correct(d, v, max)
    {
      MulCorrect(n, v);
    }
  }

  // ---------------------------------------------------------------------------
  // No truncation
  // ---------------------------------------------------------------------------

  lemma {:induction false} Pow2Sum(i: nat, j: nat)
    ensures Pow2(i + j) == Pow2(i) * Pow2(j)
  {
    if i > 0 {
      Pow2Sum(i - 1, j);
      assert Pow2(i) * Pow2(j) == 2 * (Pow2(i - 1) * Pow2(j));
    }
  }

  lemma {:induction false} Pow2Monotone(i: nat, j: nat)
    requires i <= j
    ensures Pow2(i) <= Pow2(j)
    decreases j
  {
    if i < j {
      Pow2Monotone(i, j - 1);
    }
  }

  lemma ProductBound(a: nat, b: nat, x: nat, y: nat)
    requires a < x && b < y
    ensures a * b < x * y
  {
    assert a * b <= a * y;
    assert a * y < x * y;
  }

  /** A step that overflows nothing keeps the sum exactly. */
  lemma StepExact(s: Nums, ab: nat)
    requires s.c > 0 && s.p + s.q * s.m == ab < TWO32 && s.m * 2 < TWO32 && s.q < TWO32
    ensures var t := StepNums(s); t.p + t.q * t.m == ab && t.m == s.m * 2 && t.q == s.q / 2
  {
    var t := StepNums(s);
    Halves(s.q, s.m);
    var x := s.p + (s.q % 2) * s.m;
    assert (s.q % 2) * s.m == if s.q % 2 == 1 then s.m else 0;
    assert x + (s.q / 2) * (s.m * 2) == ab;
    assert (s.q / 2) * (s.m * 2) >= 0;
    SmallMod(x, TWO32);
  }

  predicate ExactAt(n: nat, ab: nat, k: nat, s: Nums)
    requires k <= n
  {
    s.p + s.q * s.m == ab && s.m < Pow2(n + k) && s.q < Pow2(n - k)
  }

  lemma ExactNext(n: nat, ab: nat, k: nat, s: Nums, t: Nums)
    requires k < n && s.m < Pow2(n + k) && s.q < Pow2(n - k)
    requires t.p + t.q * t.m == ab && t.m == s.m * 2 && t.q == s.q / 2
    ensures ExactAt(n, ab, k + 1, t)
  {
    Pow2Doubles(n + k);
    Pow2Doubles(n - (k + 1));
  }

  lemma ExactStep(n: nat, ab: nat, k: nat, s: Nums)
    requires k < n && ExactAt(n, ab, k, s) && s.c > 0
    requires ab < TWO32 && s.m * 2 < TWO32 && s.q < TWO32
    ensures ExactAt(n, ab, k + 1, StepNums(s))
  {
    StepExact(s, ab);
    ExactNext(n, ab, k, s, StepNums(s));
  }

  lemma ExactBounds(n: nat, k: nat, s: Nums)
    requires k < n <= 16 && s.m < Pow2(n + k) && s.q < Pow2(n - k)
    ensures s.m * 2 < TWO32 && s.q < TWO32
  {
    Pow2Doubles(n + k);
    Pow2UpTo32(n + k + 1);
    Pow2UpTo32(n - k);
  }

  lemma ExactFrom(n: nat, ab: nat, k: nat, s: Nums)
    requires k < n <= 16 && ab < TWO32 && ExactAt(n, ab, k, s) && s.c > 0
    ensures ExactAt(n, ab, k + 1, StepNums(s))
  {
    ExactBounds(n, k, s);
    ExactStep(n, ab, k, s);
  }

  /** The invariant is exact, and the values stay in range. */
  lemma {:induction false} NumsExact(n: nat, a: nat, b: nat, ab: nat, k: nat)
    requires k <= n <= 16 && a < Pow2(n) && b < Pow2(n) && ab == b * a < TWO32
    ensures ExactAt(n, ab, k, NumsAt(n, a, b, k))
  {
    if k > 0 {
      NumsExact(n, a, b, ab, k - 1);
      ExactFrom(n, ab, k - 1, NumsAt(n, a, b, k - 1));
    }
  }

  lemma ProductOf(a: nat, b: nat) returns (ab: nat)
    ensures ab == a * b
  {
    ab := a * b;
  }

  lemma ProductIn(n: nat, a: nat, b: nat, ab: nat)
    requires n <= 16 && a < Pow2(n) && b < Pow2(n) && ab == a * b
    ensures ab < TWO32 && ab < Pow2(2 * n)
  {
    Pow2Sum(n, n);
    ProductBound(a, b, Pow2(n), Pow2(n));
    Pow2UpTo32(2 * n);
  }

  lemma ExactRange(n: nat, ab: nat, k: nat, s: Nums)
    requires k <= n && ExactAt(n, ab, k, s) && ab < Pow2(2 * n)
    ensures s.p < Pow2(2 * n) && s.m < Pow2(2 * n)
  {
    assert s.q * s.m >= 0;
    Pow2Monotone(n + k, 2 * n);
  }

  /** Up to width 16 the exact run stays below the range of its registers. */
  lemma ExactFits(n: nat, a: nat, b: nat, ab: nat, k: nat)
    requires k <= n <= 16 && a < Pow2(n) && b < Pow2(n) && ab == b * a
    ensures var s := NumsAt(n, a, b, k); s.p < Pow2(2 * n) && s.m < Pow2(2 * n)
  {
    ProductIn(n, b, a, ab);
    NumsExact(n, a, b, ab, k);
    ExactRange(n, ab, k, NumsAt(n, a, b, k));
  }

  lemma ExactRun(n: nat, a: nat, b: nat, k: nat)
    requires k <= n <= 16 && a < Pow2(n) && b < Pow2(n)
    ensures var s := NumsAt(n, a, b, k); s.p < Pow2(2 * n) && s.m < Pow2(2 * n)
  {
    var ab := ProductOf(b, a);
    ExactFits(n, a, b, ab, k);
  }

  lemma {:induction false} MultiplicandIsWord(n: nat, a: nat, b: nat, k: nat)
    requires k <= n && a < TWO32
    ensures NumsAt(n, a, b, k).m < TWO32
  {
    if k > 0 {
      MultiplicandIsWord(n, a, b, k - 1);
    }
  }

  /** Above width 16 every 32-bit value is below the range of the double registers. */
  lemma WordsFit(n: nat, a: nat, b: nat, k: nat)
    requires 16 < n <= 32 && k <= n && a < Pow2(n) && b < Pow2(n)
    ensures var s := NumsAt(n, a, b, k); s.p < Pow2(2 * n) && s.m < Pow2(2 * n)
  {
    NumsInvariant(n, a, b, k);
    Pow2UpTo32(n);
    MultiplicandIsWord(n, a, b, k);
    Pow2Is32();
    Pow2Monotone(32, 2 * n);
  }

  /** Every value of the run stays below the range of its register. */
  lemma NumsFit(n: nat, a: nat, b: nat, k: nat)
    requires k <= n <= 32 && a < Pow2(n) && b < Pow2(n)
    ensures var s := NumsAt(n, a, b, k); s.p < Pow2(2 * n) && s.m < Pow2(2 * n) && s.q < Pow2(n) && s.c <= n
  {
    if n <= 16 {
      ExactRun(n, a, b, k);
    } else {
      WordsFit(n, a, b, k);
    }
    NumsInvariant(n, a, b, k);
    Pow2Monotone(n - k, n);
  }

  /** Register widths that hold a `2n`-bit product and a `count` that can reach `n`. */
  ghost predicate MulWidths(n: nat, widths: map<Name, int>) {
    && WidthOf(widths, PRODUCT) == Some(2 * n) && WidthOf(widths, MCAND) == Some(2 * n)
    && WidthOf(widths, MPLIER) == Some(n)
    && exists w: nat :: WidthOf(widths, COUNT) == Some(w) && n < Pow2(w)
  }

  lemma MaskFits(x: nat, w: nat)
    requires x < Pow2(w)
    ensures Mask(V(x), Some(w)) == V(x)
  {
    SmallMod(x, Pow2(w));
  }

  lemma MulRegNames(n: nat)
    ensures RegNames(MulMachine(n)) == {PRODUCT, MCAND, MPLIER, COUNT}
  {
    var m := MulMachine(n);
    assert m.regs[0].name == PRODUCT && m.regs[1].name == MCAND
      && m.regs[2].name == MPLIER && m.regs[3].name == COUNT;
  }

  lemma NumsMask(n: nat, widths: map<Name, int>, s: Nums)
    requires MulWidths(n, widths)
    requires s.p < Pow2(2 * n) && s.m < Pow2(2 * n) && s.q < Pow2(n) && s.c <= n
    ensures Mask(V(s.p), WidthOf(widths, PRODUCT)) == V(s.p)
    ensures Mask(V(s.m), WidthOf(widths, MCAND)) == V(s.m)
    ensures Mask(V(s.q), WidthOf(widths, MPLIER)) == V(s.q)
    ensures Mask(V(s.c), WidthOf(widths, COUNT)) == V(s.c)
  {
    MaskFits(s.p, 2 * n);
    MaskFits(s.m, 2 * n);
    MaskFits(s.q, n);
    var w: nat :| WidthOf(widths, COUNT) == Some(w) && n < Pow2(w);
    MaskFits(s.c, w);
  }

  /** No commit of the multiplier ever truncates. */
  lemma MulFits(n: nat, widths: map<Name, int>, v: Row, k: nat)
    requires k <= n <= 32 && InBox(v, MulDerivation(n).Sizes()) && MulWidths(n, widths)
    ensures FitsAt(MulMachine(n), widths, LoopState(MulDerivation(n), v, k))
  {
    MulBox(n, v);
    LoopHoldsNums(n, v, k);
    NumsFit(n, v[0], v[1], k);
    NumsMask(n, widths, NumsAt(n, v[0], v[1], k));
    MulRegNames(n);
  }

  // ---------------------------------------------------------------------------
  // The scheduled multiplier
  // ---------------------------------------------------------------------------

  /** The names of the design by length and first letter. */
  lemma ControlNamesDiffer()
    ensures |"state"| == |"start"| == |MCAND| == |COUNT| == 5 && |"done"| == 4 && |"rst"| == |CLK| == 3
    ensures "state" != "start" && {"state", "start"} !! {MCAND, COUNT}
  {
    assert "state"[3] == 't' && "start"[3] == 'r';
    assert "state"[0] == 's' && "start"[0] == 's' && MCAND[0] == 'm' && COUNT[0] == 'c';
  }

  lemma MulNames(n: nat)
    ensures DistinctNames(MulMachine(n), MulDerivation(n))
  {
    NamesDiffer();
    ControlNamesDiffer();
    MulRegNames(n);
    MulInputs(n);
  }

  lemma MulSchedules(n: nat)
    ensures Schedules(MulMachine(n), MulDerivation(n))
  {
    NamesDiffer();
    MulRegNames(n);
    var d := MulDerivation(n);
    assert d.init[0] == (PRODUCT, Const(0)) && d.init[1] == (MCAND, Var(A))
      && d.init[2] == (MPLIER, Var(B)) && d.init[3] == (COUNT, Const(n));
    assert Targets(d.init) == {PRODUCT, MCAND, MPLIER, COUNT};
  }

  lemma MulInputs(n: nat)
    ensures InputNamesOf(MulDerivation(n)) == {A, B}
  {
    var d := MulDerivation(n);
    assert d.inputs[0].0 == A && d.inputs[1].0 == B;
  }

  lemma MulRegReads(n: nat, k: nat)
    requires k < 4
    ensures var r := Regs(n)[k];
      && Safe(BodyOf(r)) && Reads(BodyOf(r)) <= {PRODUCT, MCAND, MPLIER, COUNT}
      && Safe(r.init) && Reads(r.init) <= {A, B}
  {
    MulBody(n);
    assert BodyUpdates(MulMachine(n))[k] == (Regs(n)[k].name, BodyOf(Regs(n)[k]));
    assert Reads(LowBit()) == {MPLIER} && Safe(LowBit());
  }

  lemma MulReads(n: nat)
    ensures ReadsRight(MulMachine(n), MulDerivation(n))
  {
    var m, d := MulMachine(n), MulDerivation(n);
    MulRegNames(n);
    MulInputs(n);
    forall k | 0 <= k < |m.regs|
      ensures Reads(BodyOf(m.regs[k])) <= RegNames(m)
    {
      MulRegReads(n, k);
    }
    forall k | 0 <= k < |d.init|
      ensures Reads(d.init[k].1) <= InputNamesOf(d)
    {
      MulRegReads(n, k);
    }
    assert Reads(Guard()) == {COUNT} && Bases(Guard()) == {};
  }

  lemma MulNeverX(n: nat)
    ensures NeverX(MulMachine(n), MulDerivation(n))
  {
    var m, d := MulMachine(n), MulDerivation(n);
    MulRegNames(n);
    MulInputs(n);
    forall k | 0 <= k < |m.regs|
      ensures DefinedOver(m.regs[k].init, InputNamesOf(d)) && DefinedOver(BodyOf(m.regs[k]), RegNames(m))
    {
      MulRegReads(n, k);
      SafeIsDefined(m.regs[k].init, InputNamesOf(d));
      SafeIsDefined(BodyOf(m.regs[k]), RegNames(m));
    }
    assert Reads(LowBit()) == {MPLIER};
    SafeIsDefined(LowBit(), RegNames(m));
    assert Reads(Guard()) == {COUNT};
    SafeIsDefined(Guard(), RegNames(m));
  }

  lemma MulYesNo(n: nat)
    ensures YesNo(MulMachine(n))
  {
    forall env: Env
      ensures Eval(Guard(), env).V? ==> Eval(Guard(), env).n <= 1
    {
      BooleanIsZeroOrOne(Guard(), env);
    }
  }

  lemma MulContinues(n: nat, v: Row, j: nat)
    requires n <= 32 && InBox(v, MulDerivation(n).Sizes()) && Continuing(MulDerivation(n), v, j)
    ensures j <= n
  {
    MulAt(n, v, n);
  }

  /** The multiplier meets every condition the kernel does not check, for every width up to 32. */
  lemma MulLoopConditions(n: nat, widths: map<Name, int>)
    requires 1 <= n <= 32 && MulWidths(n, widths)
    ensures LoopConditions(MulMachine(n), MulDerivation(n), widths)
  {
    var m, d := MulMachine(n), MulDerivation(n);
    MulNames(n);
    MulReads(n);
    MulNeverX(n);
    MulYesNo(n);
    forall v | InBox(v, d.Sizes())
      ensures Holds(d.guard, Entry(d, v))
    {
      MulAt(n, v, 0);
    }
    forall v, j: nat | InBox(v, d.Sizes()) && Continuing(d, v, j)
      ensures FitsAt(m, widths, LoopState(d, v, j))
    {
      MulContinues(n, v, j);
      MulFits(n, widths, v, j);
    }
  }

  /**
    What the circuit promises when done is high: operands accepted `n` vectors ago, and their product
    modulo 2^32, which up to width 16 is the exact product.
    */
  ghost predicate Multiplied(n: nat, tr: Trace, i: nat)
    requires tr.Shaped() && i <= tr.Length()
  {
    && 0 < n < i && Accepted(MulMachine(n), tr, i - n) && Undisturbed(tr, i - n, i)
    && var v := OperandsAt(MulDerivation(n), tr, i - n);
      && |v| == 2 && Lookup(tr.states[i], PRODUCT) == V(Wrap(v[0] * v[1]))
      && (n <= 16 ==> Lookup(tr.states[i], PRODUCT) == V(v[0] * v[1]))
  }

  /** In every run of a circuit that schedules the multiplier, done announces the product. */
  lemma MultiplierMultiplies(n: nat, cfg: Config, s0: Env, stimulus: seq<Vector>, tr: Trace, i: nat)
    requires 1 <= n <= 32 && MulWidths(n, cfg.widths) && Circuit(MulMachine(n), MulDerivation(n), cfg)
    requires GoodStimulus(MulMachine(n), MulDerivation(n), cfg, stimulus)
    requires IsRun(cfg, s0, stimulus, tr)
    requires i <= |stimulus| && Lookup(tr.states[i], "done") == V(1)
    ensures Multiplied(n, tr, i)
  {
    var m, d := MulMachine(n), MulDerivation(n);
    MulLoopConditions(n, cfg.widths);
    MulSchedules(n);
    MulOnBox(n);
    CorrectIsSound(m, d, cfg, n);
    SimulatorFollows(m, d, cfg, s0, stimulus, tr);
    var t := DoneIsEarned(m, d, cfg.widths, tr, ResetEnv(cfg), i);
    FinishedMultiplied(n, tr, t, i);
  }

  /** A finished repetition has run exactly `n` steps and holds the product. */
  lemma FinishedMultiplied(n: nat, tr: Trace, t: nat, i: nat)
    requires 1 <= n <= 32 && tr.Shaped() && i <= tr.Length()
    requires Finished(MulMachine(n), MulDerivation(n), tr, t, i)
    ensures Multiplied(n, tr, i)
  {
    var v := OperandsAt(MulDerivation(n), tr, t);
    MulAt(n, v, 0);
    MulCorrect(n, v);
    EntryGuardDecides(MulDerivation(n), v, n, i - t);
    MulProduct(n, v);
    MulRegNames(n);
  }

  lemma ProductIsExact(n: nat, a: nat, b: nat, ab: nat)
    requires n <= 16 && a < Pow2(n) && b < Pow2(n) && ab == a * b
    ensures Wrap(ab) == ab
  {
    ProductIn(n, a, b, ab);
    SmallWrap(ab);
  }

  lemma SmallWrap(x: nat)
    requires x < TWO32
    ensures Wrap(x) == x
  {
  }

  lemma SumWithoutRest(s: Nums)
    requires s.q < 1 && s.p < TWO32
    ensures Wrap(s.p + s.q * s.m) == s.p
  {
    assert s.q * s.m == 0;
    SmallMod(s.p, TWO32);
  }

  lemma LastNums(n: nat, a: nat, b: nat)
    requires n <= 32 && a < Pow2(n) && b < Pow2(n)
    ensures NumsAt(n, a, b, n).p == Wrap(a * b)
  {
    NumsInvariant(n, a, b, n);
    SumWithoutRest(NumsAt(n, a, b, n));
  }

  /** The loop exits with the product. */
  lemma MulExit(n: nat, v: Row)
    requires n <= 32 && InBox(v, MulDerivation(n).Sizes())
    ensures |v| == 2 && Lookup(LoopState(MulDerivation(n), v, n), PRODUCT) == V(Wrap(v[0] * v[1]))
  {
    MulBox(n, v);
    LoopHoldsNums(n, v, n);
    LastNums(n, v[0], v[1]);
  }

  lemma ExactOnBox(n: nat, v: Row)
    requires n <= 16 && InBox(v, MulDerivation(n).Sizes())
    ensures |v| == 2 && Wrap(v[0] * v[1]) == v[0] * v[1]
  {
    MulBox(n, v);
    var ab := ProductOf(v[0], v[1]);
    ProductIsExact(n, v[0], v[1], ab);
  }

  lemma MulProduct(n: nat, v: Row)
    requires n <= 32 && InBox(v, MulDerivation(n).Sizes())
    ensures |v| == 2
    ensures var product := Lookup(LoopState(MulDerivation(n), v, n), PRODUCT);
      product == V(Wrap(v[0] * v[1])) && (n <= 16 ==> product == V(v[0] * v[1]))
  {
    MulExit(n, v);
    if n <= 16 {
      ExactOnBox(n, v);
    }
  }

  lemma MulOnBox(n: nat)
    requires n <= 32
    ensures CorrectOnBox(MulDerivation(n), n)
  {
    forall v | InBox(v, MulDerivation(n).Sizes())
      ensures Correct(MulDerivation(n), v, n)
    {
      MulCorrect(n, v);
    }
  }
}
