/**
  The engine-spec expression language: values, environments, the meaning of an expression, and
  the facts about reading and substituting variables that every later module uses.
  */
module Expressions {

  type Name = string

  /** A value is a natural number or X (undefined). */
  datatype Value = X | V(n: nat)

  /** A name is bound to a scalar or to a memory (an array of cells that may be X). */
  datatype Binding = Scalar(v: Value) | Memory(cells: seq<Value>)

  type Env = map<Name, Binding>

  datatype BinOp = Or | And | Eq | Ne | Le | Ge | Lt | Gt | Add | Sub | Mul | Div | Mod

  datatype UnOp = Not | Neg

  datatype Expr =
    | Const(n: nat)
    | Var(x: Name)
    | Index(base: Name, idx: Expr)
    | Ite(cond: Expr, thn: Expr, els: Expr)
    | Bin(op: BinOp, l: Expr, r: Expr)
    | Un(uop: UnOp, e: Expr)

  /** What `_eval` delivers: a value, or one of the two exceptions it can raise. */
  datatype Outcome = Val(v: Value) | IndexError | TypeError {
    predicate IsFailure() {
      !Val?
    }

    function PropagateFailure(): Outcome
      requires IsFailure()
    {
      this
    }

    function Extract(): Value
      requires !IsFailure()
    {
      v
    }
  }

  datatype Option<+T> = None | Some(value: T)

  const TWO32: nat := 0x1_0000_0000

  const ONE: Value := V(1)

  /** Every arithmetic result is masked to 32 bits; for a negative argument this is two's complement. */
  function Wrap(n: int): nat {
    n % TWO32
  }

  function Truth(b: bool): Value {
    if b then V(1) else V(0)
  }

  function Lookup(env: Env, x: Name): Value {
    if x in env && env[x].Scalar? then env[x].v else X
  }

  function CellsOf(env: Env, x: Name): seq<Value> {
    if x in env && env[x].Memory? then env[x].cells else []
  }

  function Cell(cells: seq<Value>, idx: Value): Value {
    if idx.V? && idx.n < |cells| then cells[idx.n] else X
  }

  function ApplyBin(op: BinOp, a: Value, b: Value): Value {
    if a.X? || b.X? then X
    else match op
      case Or => Truth(a.n != 0 || b.n != 0)
      case And => Truth(a.n != 0 && b.n != 0)
      case Eq => Truth(a.n == b.n)
      case Ne => Truth(a.n != b.n)
      case Le => Truth(a.n <= b.n)
      case Ge => Truth(a.n >= b.n)
      case Lt => Truth(a.n < b.n)
      case Gt => Truth(a.n > b.n)
      case Add => V(Wrap(a.n + b.n))
      case Sub => V(Wrap(a.n - b.n))
      case Mul => V(Wrap(a.n * b.n))
      case Div => if b.n == 0 then X else V(Wrap(a.n / b.n))
      case Mod => if b.n == 0 then X else V(Wrap(a.n % b.n))
  }

  function ApplyUn(op: UnOp, a: Value): Value {
    if a.X? then X
    else match op
      case Not => Truth(a.n == 0)
      case Neg => V(Wrap(0 - a.n))
  }

  function Choose(c: Value, t: Value, f: Value): Value {
    if c.X? then X else if c.n != 0 then t else f
  }

  function Eval(e: Expr, env: Env): Value {
    match e
    case Const(n) => V(n)
    case Var(x) => Lookup(env, x)
    case Index(x, i) => Cell(CellsOf(env, x), Eval(i, env))
    case Ite(c, t, f) => Choose(Eval(c, env), Eval(t, env), Eval(f, env))
    case Bin(op, a, b) => ApplyBin(op, Eval(a, env), Eval(b, env))
    case Un(op, a) => ApplyUn(op, Eval(a, env))
  }

  predicate Holds(e: Expr, env: Env) {
    Eval(e, env) == ONE
  }

  // ---------------------------------------------------------------------------
  // Exceptions. Indexing a name bound to a defined scalar raises TypeError. The
  // interpreter evaluates both branches of IF and always evaluates the index; the
  // native evaluator takes one branch and tests the base first.
  // ---------------------------------------------------------------------------

  predicate BoundScalar(env: Env, x: Name) {
    Lookup(env, x).V?
  }

  predicate Raises(e: Expr, env: Env) {
    match e
    case Const(_) => false
    case Var(_) => false
    case Index(x, i) => Raises(i, env) || (BoundScalar(env, x) && Eval(i, env).V?)
    case Ite(c, t, f) => Raises(c, env) || Raises(t, env) || Raises(f, env)
    case Bin(_, a, b) => Raises(a, env) || Raises(b, env)
    case Un(_, a) => Raises(a, env)
  }

  predicate LazyRaises(e: Expr, env: Env) {
    match e
    case Const(_) => false
    case Var(_) => false
    case Index(x, i) =>
      (BoundScalar(env, x) || (x in env && env[x].Memory?)) &&
      (LazyRaises(i, env) || (BoundScalar(env, x) && Eval(i, env).V?))
    case Ite(c, t, f) =>
      LazyRaises(c, env) ||
      (Eval(c, env).V? && (if Eval(c, env).n != 0 then LazyRaises(t, env) else LazyRaises(f, env)))
    case Bin(_, a, b) => LazyRaises(a, env) || LazyRaises(b, env)
    case Un(_, a) => LazyRaises(a, env)
  }

  /** What the interpreter makes of an expression. */
  function EagerOutcome(e: Expr, env: Env): Outcome {
    if Raises(e, env) then TypeError else Val(Eval(e, env))
  }

  /** What the native evaluator makes of it. */
  function LazyOutcome(e: Expr, env: Env): Outcome {
    if LazyRaises(e, env) then TypeError else Val(Eval(e, env))
  }

  /** Whatever the native evaluator rejects, the interpreter rejects too. */
  lemma {:induction false} LazyRaisesImpliesRaises(e: Expr, env: Env)
    ensures LazyRaises(e, env) ==> Raises(e, env)
  {
    match e
    case Const(_) =>
    case Var(_) =>
    case Index(x, i) => LazyRaisesImpliesRaises(i, env);
    case Ite(c, t, f) =>
      LazyRaisesImpliesRaises(c, env);
      LazyRaisesImpliesRaises(t, env);
      LazyRaisesImpliesRaises(f, env);
    case Bin(_, a, b) =>
      LazyRaisesImpliesRaises(a, env);
      LazyRaisesImpliesRaises(b, env);
    case Un(_, a) => LazyRaisesImpliesRaises(a, env);
  }

  /**
    The interpreter rejects something at a position the native evaluator skips: the branch not taken,
    both branches under an X condition, or the index under a base that is no memory and has no value.
    */
  predicate SkippedRaises(e: Expr, env: Env) {
    match e
    case Const(_) => false
    case Var(_) => false
    case Index(x, i) =>
      if BoundScalar(env, x) || (x in env && env[x].Memory?) then SkippedRaises(i, env) else Raises(i, env)
    case Ite(c, t, f) =>
      SkippedRaises(c, env) ||
      if Eval(c, env).X? then Raises(t, env) || Raises(f, env)
      else if Eval(c, env).n != 0 then SkippedRaises(t, env) || Raises(f, env)
      else Raises(t, env) || SkippedRaises(f, env)
    case Bin(_, a, b) => SkippedRaises(a, env) || SkippedRaises(b, env)
    case Un(_, a) => SkippedRaises(a, env)
  }

  /** The interpreter rejects what is reached lazily and what is skipped, and nothing else. */
  lemma {:induction false} RaisesIsReachedOrSkipped(e: Expr, env: Env)
    ensures Raises(e, env) <==> LazyRaises(e, env) || SkippedRaises(e, env)
  {
    match e
    case Const(_) =>
    case Var(_) =>
    case Index(x, i) => RaisesIsReachedOrSkipped(i, env);
    case Ite(c, t, f) =>
      RaisesIsReachedOrSkipped(c, env);
      RaisesIsReachedOrSkipped(t, env);
      RaisesIsReachedOrSkipped(f, env);
    case Bin(_, a, b) =>
      RaisesIsReachedOrSkipped(a, env);
      RaisesIsReachedOrSkipped(b, env);
    case Un(_, a) => RaisesIsReachedOrSkipped(a, env);
  }

  // ---------------------------------------------------------------------------
  // Which names an expression reads
  // ---------------------------------------------------------------------------

  function Reads(e: Expr): set<Name> {
    match e
    case Const(_) => {}
    case Var(x) => {x}
    case Index(x, i) => {x} + Reads(i)
    case Ite(c, t, f) => Reads(c) + Reads(t) + Reads(f)
    case Bin(_, a, b) => Reads(a) + Reads(b)
    case Un(_, a) => Reads(a)
  }

  function Bases(e: Expr): set<Name> {
    match e
    case Const(_) => {}
    case Var(_) => {}
    case Index(x, i) => {x} + Bases(i)
    case Ite(c, t, f) => Bases(c) + Bases(t) + Bases(f)
    case Bin(_, a, b) => Bases(a) + Bases(b)
    case Un(_, a) => Bases(a)
  }

  /** Nothing is rejected, eagerly or lazily, when no indexed name is bound to a defined scalar. */
  lemma {:induction false} ScalarFreeNeverRaises(e: Expr, env: Env)
    requires forall x | x in Bases(e) :: !BoundScalar(env, x)
    ensures !Raises(e, env) && !LazyRaises(e, env)
  {
    match e
    case Const(_) =>
    case Var(_) =>
    case Index(x, i) =>
      assert x in Bases(e);
      ScalarFreeNeverRaises(i, env);
    case Ite(c, t, f) =>
      ScalarFreeNeverRaises(c, env);
      ScalarFreeNeverRaises(t, env);
      ScalarFreeNeverRaises(f, env);
    case Bin(_, a, b) =>
      ScalarFreeNeverRaises(a, env);
      ScalarFreeNeverRaises(b, env);
    case Un(_, a) => ScalarFreeNeverRaises(a, env);
  }

  predicate SameAt(a: Env, b: Env, x: Name) {
    Lookup(a, x) == Lookup(b, x) && CellsOf(a, x) == CellsOf(b, x)
  }

  ghost predicate SameOn(a: Env, b: Env, xs: set<Name>) {
    forall x | x in xs :: SameAt(a, b, x)
  }

  /** An expression sees an environment only through the names it reads. */
  lemma {:induction false} EvalSees(e: Expr, a: Env, b: Env)
    requires SameOn(a, b, Reads(e))
    ensures Eval(e, a) == Eval(e, b)
  {
    match e
    case Const(_) =>
    case Var(x) => assert SameAt(a, b, x);
    case Index(x, i) =>
      assert SameAt(a, b, x);
      EvalSees(i, a, b);
    case Ite(c, t, f) =>
      EvalSees(c, a, b);
      EvalSees(t, a, b);
      EvalSees(f, a, b);
    case Bin(_, l, r) =>
      EvalSees(l, a, b);
      EvalSees(r, a, b);
    case Un(_, x) => EvalSees(x, a, b);
  }

  // ---------------------------------------------------------------------------
  // Definedness
  // ---------------------------------------------------------------------------

  ghost predicate DefinedAt(env: Env, xs: set<Name>) {
    forall x | x in xs :: Lookup(env, x).V?
  }

  /** The expression has a value whenever the names in `xs` have one. */
  ghost predicate DefinedOver(e: Expr, xs: set<Name>) {
    forall env: Env | DefinedAt(env, xs) :: Eval(e, env).V?
  }

  /** A check a caller can make: no memory read, and every divisor a positive constant. */
  predicate Safe(e: Expr) {
    match e
    case Const(_) => true
    case Var(_) => true
    case Index(_, _) => false
    case Ite(c, t, f) => Safe(c) && Safe(t) && Safe(f)
    case Bin(op, a, b) => Safe(a) && Safe(b) && (op.Div? || op.Mod? ==> b.Const? && b.n > 0)
    case Un(_, a) => Safe(a)
  }

  lemma {:induction false} SafeEval(e: Expr, env: Env)
    requires Safe(e) && DefinedAt(env, Reads(e))
    ensures Eval(e, env).V?
  {
    match e
    case Const(_) =>
    case Var(x) =>
    case Ite(c, t, f) =>
      SafeEval(c, env);
      SafeEval(t, env);
      SafeEval(f, env);
    case Bin(_, a, b) =>
      SafeEval(a, env);
      SafeEval(b, env);
    case Un(_, a) => SafeEval(a, env);
  }

  lemma SafeIsDefined(e: Expr, xs: set<Name>)
    requires Safe(e) && Reads(e) <= xs
    ensures DefinedOver(e, xs)
  {
    forall env: Env | DefinedAt(env, xs)
      ensures Eval(e, env).V?
    {
      SafeEval(e, env);
    }
  }

  /** A check that an expression only ever yields 0, 1 or X. */
  predicate Boolean(e: Expr) {
    match e
    case Const(n) => n <= 1
    case Bin(op, _, _) => op.Or? || op.And? || op.Eq? || op.Ne? || op.Le? || op.Ge? || op.Lt? || op.Gt?
    case Un(op, _) => op.Not?
    case Ite(_, t, f) => Boolean(t) && Boolean(f)
    case _ => false
  }

  lemma {:induction false} BooleanIsZeroOrOne(e: Expr, env: Env)
    requires Boolean(e)
    ensures Eval(e, env).V? ==> Eval(e, env).n <= 1
  {
    match e
    case Ite(_, t, f) =>
      BooleanIsZeroOrOne(t, env);
      BooleanIsZeroOrOne(f, env);
    case _ =>
  }

  // ---------------------------------------------------------------------------
  // Substitution
  // ---------------------------------------------------------------------------

  function Subst(e: Expr, m: map<Name, Expr>): Expr {
    match e
    case Const(_) => e
    case Var(x) => if x in m then m[x] else e
    case Index(x, i) => Index(x, Subst(i, m))
    case Ite(c, t, f) => Ite(Subst(c, m), Subst(t, m), Subst(f, m))
    case Bin(op, a, b) => Bin(op, Subst(a, m), Subst(b, m))
    case Un(op, a) => Un(op, Subst(a, m))
  }

  /** The environment in which every substituted name already holds its new value. */
  function Overlay(env: Env, m: map<Name, Expr>): Env {
    env + map x | x in m :: Scalar(Eval(m[x], env))
  }

  /** Substituting first and evaluating in the old state is evaluating in the updated state. */
  lemma {:induction false} SubstIsUpdate(e: Expr, m: map<Name, Expr>, env: Env)
    requires Bases(e) !! m.Keys
    ensures Eval(Subst(e, m), env) == Eval(e, Overlay(env, m))
  {
    match e
    case Const(_) =>
    case Var(x) =>
    case Index(x, i) =>
      assert x !in m;
      SubstIsUpdate(i, m, env);
    case Ite(c, t, f) =>
      SubstIsUpdate(c, m, env);
      SubstIsUpdate(t, m, env);
      SubstIsUpdate(f, m, env);
    case Bin(_, a, b) =>
      SubstIsUpdate(a, m, env);
      SubstIsUpdate(b, m, env);
    case Un(_, a) => SubstIsUpdate(a, m, env);
  }

  // ---------------------------------------------------------------------------
  // IF chains
  // ---------------------------------------------------------------------------

  /** `IF g1 THEN e1 ELSE IF g2 THEN e2 ... ELSE dflt` */
  function Fold(pairs: seq<(Expr, Expr)>, dflt: Expr): Expr {
    if pairs == [] then dflt else Ite(pairs[0].0, pairs[0].1, Fold(pairs[1..], dflt))
  }

  /** As a condition of IF, any defined value but 0 is true. */
  predicate Fires(g: Expr, env: Env) {
    Eval(g, env).V? && Eval(g, env).n != 0
  }

  /** A chain takes the value of its first true guard, provided no guard before it is X. */
  lemma {:induction false} FoldTakesFirst(pairs: seq<(Expr, Expr)>, dflt: Expr, env: Env, k: nat)
    requires k <= |pairs|
    requires forall i | 0 <= i < k :: Eval(pairs[i].0, env) == V(0)
    requires k < |pairs| ==> Fires(pairs[k].0, env)
    ensures Eval(Fold(pairs, dflt), env) == Eval(if k < |pairs| then pairs[k].1 else dflt, env)
    decreases |pairs|
  {
    if k > 0 {
      assert Eval(pairs[0].0, env) == V(0);
      FoldTakesFirst(pairs[1..], dflt, env, k - 1);
    }
  }

  // ---------------------------------------------------------------------------
  // Assignments
  // ---------------------------------------------------------------------------

  type Updates = seq<(Name, Expr)>

  function Targets(us: Updates): set<Name> {
    set k | 0 <= k < |us| :: us[k].0
  }

  ghost predicate DistinctTargets(us: Updates) {
    forall i, j | 0 <= i < j < |us| :: us[i].0 != us[j].0
  }

  /** Assignments carried out one after another, each seeing the ones before it. */
  function Sequential(env: Env, us: Updates): Env
    decreases us
  {
    if us == [] then env
    else Sequential(env[us[0].0 := Scalar(Eval(us[0].1, env))], us[1..])
  }

  /** Assignments whose right-hand sides all read `pre`, landing on `base` in order. */
  function Land(base: Env, pre: Env, us: Updates): Env
    decreases us
  {
    if us == [] then base
    else Land(base[us[0].0 := Scalar(Eval(us[0].1, pre))], pre, us[1..])
  }

  /** One nonblocking step: every right-hand side reads the state before the step. */
  function Simultaneous(env: Env, us: Updates): Env {
    Land(env, env, us)
  }

  lemma {:induction false} LandLookup(base: Env, pre: Env, us: Updates, x: Name)
    requires DistinctTargets(us)
    ensures x !in Targets(us) ==> SameAt(Land(base, pre, us), base, x)
    ensures forall k | 0 <= k < |us| :: us[k].0 == x ==> Lookup(Land(base, pre, us), x) == Eval(us[k].1, pre)
    ensures x in Targets(us) ==> CellsOf(Land(base, pre, us), x) == []
    decreases us
  {
    if us != [] {
      var next := base[us[0].0 := Scalar(Eval(us[0].1, pre))];
      LandLookup(next, pre, us[1..], x);
      assert forall k | 0 < k < |us| :: us[k] == us[1..][k - 1];
      if x == us[0].0 {
        assert x !in Targets(us[1..]);
      } else if x in Targets(us) {
        var k :| 0 <= k < |us| && us[k].0 == x;
        assert us[1..][k - 1].0 == x;
      } else {
        assert x !in Targets(us[1..]);
      }
    }
  }

  lemma {:induction false} SequentialFrame(env: Env, us: Updates, x: Name)
    requires x !in Targets(us)
    ensures SameAt(Sequential(env, us), env, x)
    decreases us
  {
    if us != [] {
      assert forall k | 0 < k < |us| :: us[k] == us[1..][k - 1];
      assert x != us[0].0;
      SequentialFrame(env[us[0].0 := Scalar(Eval(us[0].1, env))], us[1..], x);
    }
  }

  /** Assignments that read none of each other's targets may as well land together. */
  lemma {:induction false} SequentialLookup(env: Env, us: Updates, k: nat)
    requires DistinctTargets(us) && k < |us|
    requires forall i | 0 <= i < |us| :: Reads(us[i].1) !! Targets(us)
    ensures Lookup(Sequential(env, us), us[k].0) == Eval(us[k].1, env)
    decreases us
  {
    var next := env[us[0].0 := Scalar(Eval(us[0].1, env))];
    assert forall i | 0 < i < |us| :: us[i] == us[1..][i - 1];
    assert Targets(us[1..]) <= Targets(us);
    if k == 0 {
      assert us[0].0 !in Targets(us[1..]);
      SequentialFrame(next, us[1..], us[0].0);
    } else {
      SequentialLookup(next, us[1..], k - 1);
      assert us[0].0 in Targets(us);
      EvalSees(us[k].1, env, next);
    }
  }

  // ---------------------------------------------------------------------------
  // Register widths
  // ---------------------------------------------------------------------------

  function Pow2(k: nat): (p: nat)
    ensures p > 0
  {
    if k == 0 then 1 else 2 * Pow2(k - 1)
  }

  /** `_mask`: truncate to the declared width; an undeclared or non-positive width keeps the value. */
  function Mask(v: Value, w: Option<int>): Value {
    if v.X? || w.None? || w.value <= 0 then v else V(v.n % Pow2(w.value))
  }

  function WidthOf(widths: map<Name, int>, x: Name): Option<int> {
    if x in widths then Some(widths[x]) else None
  }

  lemma SmallMod(n: nat, m: nat)
    requires n < m
    ensures n % m == n
  {
  }

  lemma MaskIdempotent(v: Value, w: Option<int>)
    ensures Mask(Mask(v, w), w) == Mask(v, w)
  {
    if v.V? && w.Some? && w.value > 0 {
      SmallMod(v.n % Pow2(w.value), Pow2(w.value));
    }
  }
}
