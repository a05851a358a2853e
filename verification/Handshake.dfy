/**
  The scheduled loop as a circuit: an IDLE/BUSY/DONE machine around the loop registers, run by
  the cycle simulator. Proved: over every stream of resets, starts and operands the circuit
  follows the abstract machine below, cycle by cycle.
  */
module Handshake {
  import opened Expressions
  import opened Domain
  import opened Kernel
  import opened Simulator

  /** A loop register: its load value and its body, already split into guarded values and a default. */
  datatype LoopReg = LoopReg(name: Name, init: Expr, pairs: seq<(Expr, Expr)>, dflt: Expr)

  datatype Machine = Machine(state: Name, done: Name, start: Name, regs: seq<LoopReg>, guard: Expr)

  function BodyOf(r: LoopReg): Expr {
    Fold(r.pairs, r.dflt)
  }

  function RegNames(m: Machine): set<Name> {
    set k | 0 <= k < |m.regs| :: m.regs[k].name
  }

  function BodyUpdates(m: Machine): (us: Updates)
    ensures |us| == |m.regs|
  {
    seq(|m.regs|, k requires 0 <= k < |m.regs| => (m.regs[k].name, BodyOf(m.regs[k])))
  }

  // ---------------------------------------------------------------------------
  // The next-state expressions the scheduler emits
  // ---------------------------------------------------------------------------

  function StateIs(m: Machine, c: nat): Expr {
    Bin(Eq, Var(m.state), Const(c))
  }

  /** Accept start in IDLE or DONE. */
  function Load(m: Machine): Expr {
    Bin(And, Bin(Or, StateIs(m, 0), StateIs(m, 2)), Bin(Eq, Var(m.start), Const(1)))
  }

  function BodyMap(m: Machine): map<Name, Expr> {
    map k | k in RegNames(m) :: BodyFor(m.regs, k)
  }

  /** The body of the last register of that name, as a dictionary keeps it. */
  function BodyFor(regs: seq<LoopReg>, x: Name): Expr {
    if regs == [] then Var(x)
    else if regs[|regs| - 1].name == x then BodyOf(regs[|regs| - 1])
    else BodyFor(regs[..|regs| - 1], x)
  }

  /** The loop guard one body step ahead. */
  function Stay(m: Machine): Expr {
    Subst(m.guard, BodyMap(m))
  }

  function StateNext(m: Machine): Expr {
    Ite(Load(m), Const(1),
      Ite(Bin(And, StateIs(m, 1), Stay(m)), Const(1),
        Ite(StateIs(m, 1), Const(2),
          Ite(StateIs(m, 2), Const(0), Const(0)))))
  }

  /** STEP on the busy branches, HOLD otherwise. */
  function BusyChain(m: Machine, pairs: seq<(Expr, Expr)>, dflt: Expr, hold: Expr): Expr {
    if pairs == [] then Ite(StateIs(m, 1), dflt, hold)
    else Ite(Bin(And, StateIs(m, 1), pairs[0].0), pairs[0].1, BusyChain(m, pairs[1..], dflt, hold))
  }

  function RegNext(m: Machine, r: LoopReg): Expr {
    Ite(Load(m), r.init, BusyChain(m, r.pairs, r.dflt, Var(r.name)))
  }

  function ClockedUpdates(m: Machine): (us: seq<(Lhs, Expr)>)
    ensures |us| == |m.regs| + 1
  {
    [(Reg(m.state), StateNext(m))] +
    seq(|m.regs|, k requires 0 <= k < |m.regs| => (Reg(m.regs[k].name), RegNext(m, m.regs[k])))
  }

  function DoneUpdate(m: Machine): Updates {
    [(m.done, StateIs(m, 2))]
  }

  // ---------------------------------------------------------------------------
  // Side conditions
  // ---------------------------------------------------------------------------

  function InputNamesOf(d: Derivation): set<Name> {
    set k | 0 <= k < |d.inputs| :: d.inputs[k].0
  }

  ghost predicate DistinctNames(m: Machine, d: Derivation) {
    && (forall i, j | 0 <= i < j < |m.regs| :: m.regs[i].name != m.regs[j].name)
    && (forall i, j | 0 <= i < j < |d.inputs| :: d.inputs[i].0 != d.inputs[j].0)
    && m.state != m.done && m.start != m.state && m.start != m.done
    && RegNames(m) !! {m.state, m.done, m.start}
    && InputNamesOf(d) !! RegNames(m) + {m.state, m.done, m.start}
  }

  /** The circuit schedules the loop of the derivation. */
  ghost predicate Schedules(m: Machine, d: Derivation) {
    && d.body == BodyUpdates(m) && d.guard == m.guard
    && DistinctTargets(d.init) && Targets(d.init) == RegNames(m)
    && forall k | 0 <= k < |m.regs| :: (m.regs[k].name, m.regs[k].init) in d.init
  }

  /** Init reads only inputs; body and guard read only loop registers, and no memory. */
  ghost predicate ReadsRight(m: Machine, d: Derivation) {
    && (forall k | 0 <= k < |d.init| :: Reads(d.init[k].1) <= InputNamesOf(d))
    && (forall k | 0 <= k < |m.regs| :: Reads(BodyOf(m.regs[k])) <= RegNames(m))
    && Reads(m.guard) <= RegNames(m) && Bases(m.guard) == {}
  }

  /** Nothing the circuit tests or stores is X while registers and operands are defined. */
  ghost predicate NeverX(m: Machine, d: Derivation) {
    && (forall k | 0 <= k < |m.regs| :: DefinedOver(m.regs[k].init, InputNamesOf(d)))
    && (forall k | 0 <= k < |m.regs| :: DefinedOver(BodyOf(m.regs[k]), RegNames(m)))
    && (forall k, i | 0 <= k < |m.regs| && 0 <= i < |m.regs[k].pairs| ::
          DefinedOver(m.regs[k].pairs[i].0, RegNames(m)))
    && DefinedOver(m.guard, RegNames(m))
  }

  /** The guard only says yes or no: the kernel loops on 1, the circuit on anything but 0. */
  ghost predicate YesNo(m: Machine) {
    forall env: Env :: Eval(m.guard, env).V? ==> Eval(m.guard, env).n <= 1
  }

  ghost predicate ExitsAt(d: Derivation, v: Row, k: nat)
    requires |v| == |d.inputs|
  {
    && (forall j | 0 <= j < k :: Holds(d.guard, LoopState(d, v, j)))
    && !Holds(d.guard, LoopState(d, v, k))
  }

  /** The circuit enters BUSY without testing the guard: it repeats until the guard fails after a step. */
  ghost predicate ExitsAfter(d: Derivation, v: Row, k: nat)
    requires |v| == |d.inputs|
  {
    && k > 0
    && (forall j | 0 < j < k :: Holds(d.guard, LoopState(d, v, j)))
    && !Holds(d.guard, LoopState(d, v, k))
  }

  /** The circuit and the loop run equally long exactly when the guard holds at entry. */
  lemma EntryGuardDecides(d: Derivation, v: Row, n: nat, k: nat)
    requires |v| == |d.inputs| && ExitsAt(d, v, n) && ExitsAfter(d, v, k)
    ensures n == k <==> Holds(d.guard, Entry(d, v))
  {
    assert LoopState(d, v, 0) == Entry(d, v);
  }

  ghost predicate FitsAt(m: Machine, widths: map<Name, int>, s: Env) {
    forall x | x in RegNames(m) :: Mask(Lookup(s, x), WidthOf(widths, x)) == Lookup(s, x)
  }

  /** For every operand in range the circuit ends its repetition and never outgrows its registers. */
  ghost predicate RunsAndFits(m: Machine, d: Derivation, widths: map<Name, int>) {
    forall v | InBox(v, d.Sizes()) :: exists k: nat :: RunsTo(m, d, widths, v, k)
  }

  /** The circuit leaves BUSY after `k` steps on `v` and fits its registers all the way. */
  ghost predicate RunsTo(m: Machine, d: Derivation, widths: map<Name, int>, v: Row, k: nat)
    requires |v| == |d.inputs|
  {
    ExitsAfter(d, v, k) && forall j | 0 <= j <= k :: FitsAt(m, widths, LoopState(d, v, j))
  }

  ghost predicate ResetsRight(m: Machine, cfg: Config) {
    && RegsOnly(ResetTargets(cfg, cfg.reset)) && DistinctBases(ResetTargets(cfg, cfg.reset))
    && (Reg(m.state), Const(0)) in ResetTargets(cfg, cfg.reset)
    && forall x | x in RegNames(m) :: exists n :: (Reg(x), Const(n)) in ResetTargets(cfg, cfg.reset)
  }

  ghost predicate Circuit(m: Machine, d: Derivation, cfg: Config) {
    && cfg.clocked == ClockedUpdates(m) && cfg.comb == DoneUpdate(m) && ResetsRight(m, cfg)
    && m.state in cfg.widths && cfg.widths[m.state] == 2
    && m.done in cfg.widths && cfg.widths[m.done] == 1
    && {CLK, cfg.resetPort} !! InputNamesOf(d) + {m.start}
    && BasesOf(ResetTargets(cfg, cfg.reset)) !! InputNamesOf(d) + {m.start}
  }

  ghost predicate Sound(m: Machine, d: Derivation, cfg: Config) {
    && DistinctNames(m, d) && Schedules(m, d) && ReadsRight(m, d) && NeverX(m, d) && YesNo(m)
    && RunsAndFits(m, d, cfg.widths) && Circuit(m, d, cfg)
  }

  /** Vectors drive no register, give start a value, and give each operand a value in range. */
  ghost predicate GoodVector(m: Machine, d: Derivation, inputs: Vector) {
    && inputs.Keys !! RegNames(m) + {m.state, m.done}
    && (m.start in inputs ==> inputs[m.start].V?)
    && forall k | 0 <= k < |d.inputs| && d.inputs[k].0 in inputs ::
         inputs[d.inputs[k].0].V? && inputs[d.inputs[k].0].n < d.Sizes()[k]
  }

  // ---------------------------------------------------------------------------
  // The abstract machine
  // ---------------------------------------------------------------------------

  /** IDLE with whatever the registers hold, BUSY after `j` steps on operands `v`, or DONE after `k`. */
  datatype Phase = Idle(held: Env) | Busy(v: Row, j: nat) | Done(v: Row, k: nat)

  function Code(p: Phase): nat {
    match p case Idle(_) => 0 case Busy(_, _) => 1 case Done(_, _) => 2
  }

  ghost predicate PhaseOk(d: Derivation, p: Phase) {
    match p
    case Idle(_) => true
    case Busy(v, j) => InBox(v, d.Sizes()) && forall i | 0 < i <= j :: Holds(d.guard, LoopState(d, v, i))
    case Done(v, k) => InBox(v, d.Sizes()) && ExitsAfter(d, v, k)
  }

  /** What the loop registers hold in a phase. */
  function Content(d: Derivation, p: Phase): Env
    requires p.Busy? || p.Done? ==> |p.v| == |d.inputs|
  {
    match p
    case Idle(h) => h
    case Busy(v, j) => LoopState(d, v, j)
    case Done(v, k) => LoopState(d, v, k)
  }

  /** One clock cycle: start is heard in IDLE and DONE only, BUSY steps until the guard fails. */
  function Next(d: Derivation, p: Phase, start: bool, ops: Row): Phase
    requires p.Busy? || p.Done? ==> |p.v| == |d.inputs|
  {
    match p
    case Idle(_) => if start then Busy(ops, 0) else p
    case Busy(v, j) => if Holds(d.guard, LoopState(d, v, j + 1)) then Busy(v, j + 1) else Done(v, j + 1)
    case Done(v, k) => if start then Busy(ops, 0) else Idle(LoopState(d, v, k))
  }

  /** The circuit state shows the phase: control code, done flag, loop registers. */
  ghost predicate Shows(m: Machine, d: Derivation, widths: map<Name, int>, s: Env, p: Phase) {
    && PhaseOk(d, p)
    && Lookup(s, m.state) == V(Code(p))
    && Lookup(s, m.done) == Truth(p.Done?)
    && forall x | x in RegNames(m) ::
         && Lookup(s, x) == Lookup(Content(d, p), x)
         && Lookup(s, x).V?
         && Mask(Lookup(s, x), WidthOf(widths, x)) == Lookup(s, x)
  }

  ghost predicate OperandsReady(m: Machine, d: Derivation, s: Env) {
    && Lookup(s, m.start).V?
    && forall k | 0 <= k < |d.inputs| :: Lookup(s, d.inputs[k].0).V? && Lookup(s, d.inputs[k].0).n < d.Sizes()[k]
  }

  function OperandsIn(d: Derivation, s: Env): (v: Row)
    ensures |v| == |d.inputs|
  {
    seq(|d.inputs|, k requires 0 <= k < |d.inputs| =>
      var x := Lookup(s, d.inputs[k].0); if x.V? then x.n else 0)
  }

  // ---------------------------------------------------------------------------
  // The loop states, register by register
  // ---------------------------------------------------------------------------

  lemma BodyForIs(regs: seq<LoopReg>, k: nat)
    requires k < |regs| && forall i, j | 0 <= i < j < |regs| :: regs[i].name != regs[j].name
    ensures BodyFor(regs, regs[k].name) == BodyOf(regs[k])
    decreases |regs|
  {
    var n := |regs| - 1;
    if k < n {
      BodyForIs(regs[..n], k);
    }
  }

  lemma {:induction false} InputEnvLookup(inputs: seq<(Name, nat)>, v: Row, k: nat)
    requires |v| == |inputs| && k < |inputs|
    requires forall i, j | 0 <= i < j < |inputs| :: inputs[i].0 != inputs[j].0
    ensures Lookup(InputEnv(inputs, v), inputs[k].0) == V(v[k])
    decreases |inputs|
  {
    var n := |inputs| - 1;
    if k < n {
      InputEnvLookup(inputs[..n], v[..n], k);
    }
  }

  lemma {:induction false} InputEnvScalars(inputs: seq<(Name, nat)>, v: Row, x: Name)
    requires |v| == |inputs|
    ensures CellsOf(InputEnv(inputs, v), x) == []
    ensures x in InputEnv(inputs, v) <==> exists k | 0 <= k < |inputs| :: inputs[k].0 == x
    decreases |inputs|
  {
    if inputs != [] {
      var n := |inputs| - 1;
      InputEnvScalars(inputs[..n], v[..n], x);
      if exists k | 0 <= k < |inputs| :: inputs[k].0 == x {
        var k :| 0 <= k < |inputs| && inputs[k].0 == x;
        if k < n {
          assert inputs[..n][k].0 == x;
        }
      }
    }
  }

  lemma BodyUpdatesDistinct(m: Machine, d: Derivation)
    requires DistinctNames(m, d)
    ensures DistinctTargets(BodyUpdates(m)) && Targets(BodyUpdates(m)) == RegNames(m)
  {
    var us := BodyUpdates(m);
    forall x | x in RegNames(m)
      ensures x in Targets(us)
    {
      var k :| 0 <= k < |m.regs| && m.regs[k].name == x;
      assert us[k].0 == x;
    }
  }

  /** A loop register after one more step holds its body read in the state before. */
  lemma StepLookup(m: Machine, d: Derivation, v: Row, j: nat, k: nat)
    requires DistinctNames(m, d) && Schedules(m, d) && |v| == |d.inputs| && k < |m.regs|
    ensures Lookup(LoopState(d, v, j + 1), m.regs[k].name) == Eval(BodyOf(m.regs[k]), LoopState(d, v, j))
  {
    BodyUpdatesDistinct(m, d);
    LandLookup(LoopState(d, v, j), LoopState(d, v, j), d.body, m.regs[k].name);
    assert d.body[k] == (m.regs[k].name, BodyOf(m.regs[k]));
  }

  /** A loop register at entry holds its init expression read over the operands. */
  lemma EntryLookup(m: Machine, d: Derivation, v: Row, k: nat)
    requires DistinctNames(m, d) && Schedules(m, d) && ReadsRight(m, d) && |v| == |d.inputs| && k < |m.regs|
    ensures Lookup(Entry(d, v), m.regs[k].name) == Eval(m.regs[k].init, InputEnv(d.inputs, v))
  {
    var i :| 0 <= i < |d.init| && d.init[i] == (m.regs[k].name, m.regs[k].init);
    SequentialLookup(InputEnv(d.inputs, v), d.init, i);
  }

  /** Inside the loop nothing but the loop registers ever differs from the operands. */
  lemma {:induction false} LoopFrame(m: Machine, d: Derivation, v: Row, j: nat, x: Name)
    requires DistinctNames(m, d) && Schedules(m, d) && |v| == |d.inputs| && x !in RegNames(m)
    ensures SameAt(LoopState(d, v, j), InputEnv(d.inputs, v), x)
  {
    if j == 0 {
      SequentialFrame(InputEnv(d.inputs, v), d.init, x);
    } else {
      LoopFrame(m, d, v, j - 1, x);
      BodyUpdatesDistinct(m, d);
      LandLookup(LoopState(d, v, j - 1), LoopState(d, v, j - 1), d.body, x);
    }
  }

  lemma RegsHoldScalars(m: Machine, d: Derivation, v: Row, j: nat, x: Name)
    requires DistinctNames(m, d) && Schedules(m, d) && |v| == |d.inputs| && x in RegNames(m) && j > 0
    ensures CellsOf(LoopState(d, v, j), x) == []
  {
    BodyUpdatesDistinct(m, d);
    LandLookup(LoopState(d, v, j - 1), LoopState(d, v, j - 1), d.body, x);
  }

  // ---------------------------------------------------------------------------
  // What the next-state expressions evaluate to
  // ---------------------------------------------------------------------------

  /** The state an edge sees: phase showing, start and operands defined. */
  ghost predicate Ready(m: Machine, d: Derivation, s: Env, p: Phase) {
    && PhaseOk(d, p) && OperandsReady(m, d, s)
    && Lookup(s, m.state) == V(Code(p))
    && forall x | x in RegNames(m) :: Lookup(s, x) == Lookup(Content(d, p), x) && Lookup(s, x).V?
  }

  predicate Started(m: Machine, s: Env) {
    Lookup(s, m.start) == V(1)
  }

  lemma SeesRegs(m: Machine, e: Expr, a: Env, b: Env)
    requires Reads(e) <= RegNames(m)
    requires forall x | x in RegNames(m) :: Lookup(a, x) == Lookup(b, x) && Lookup(a, x).V?
    ensures Eval(e, a) == Eval(e, b)
  {
    forall x | x in Reads(e)
      ensures SameAt(a, b, x)
    {
      assert x in RegNames(m);
    }
    EvalSees(e, a, b);
  }

  lemma LoadValue(m: Machine, d: Derivation, s: Env, p: Phase)
    requires Ready(m, d, s, p)
    ensures Eval(Load(m), s) == Truth(!p.Busy? && Started(m, s))
  {
    assert Eval(StateIs(m, 0), s) == Truth(Code(p) == 0);
    assert Eval(StateIs(m, 2), s) == Truth(Code(p) == 2);
    assert Eval(Bin(Or, StateIs(m, 0), StateIs(m, 2)), s) == Truth(!p.Busy?);
    assert Eval(Bin(Eq, Var(m.start), Const(1)), s) == Truth(Started(m, s));
  }

  /** One step ahead a register holds what its body computes. */
  lemma StaysBody(m: Machine, s: Env, k: nat)
    requires k < |m.regs| && forall i, j | 0 <= i < j < |m.regs| :: m.regs[i].name != m.regs[j].name
    ensures Lookup(Overlay(s, BodyMap(m)), m.regs[k].name) == Eval(BodyOf(m.regs[k]), s)
  {
    BodyForIs(m.regs, k);
    assert m.regs[k].name in RegNames(m);
  }

  lemma StayReg(m: Machine, d: Derivation, s: Env, p: Phase, k: nat)
    requires DistinctNames(m, d) && Schedules(m, d) && ReadsRight(m, d) && NeverX(m, d)
    requires Ready(m, d, s, p) && k < |m.regs|
    ensures var x := m.regs[k].name;
      var after := Overlay(s, BodyMap(m));
      && Lookup(after, x).V?
      && (p.Busy? ==> Lookup(after, x) == Lookup(LoopState(d, p.v, p.j + 1), x))
  {
    StaysBody(m, s, k);
    assert DefinedAt(s, RegNames(m));
    if p.Busy? {
      BodySteps(m, d, s, p, k);
    }
  }

  /** The body of a register, read in BUSY, is its value one step later. */
  lemma BodySteps(m: Machine, d: Derivation, s: Env, p: Phase, k: nat)
    requires DistinctNames(m, d) && Schedules(m, d) && ReadsRight(m, d) && NeverX(m, d)
    requires Ready(m, d, s, p) && k < |m.regs| && p.Busy?
    ensures Eval(BodyOf(m.regs[k]), s) == Lookup(LoopState(d, p.v, p.j + 1), m.regs[k].name)
  {
    SeesRegs(m, BodyOf(m.regs[k]), s, LoopState(d, p.v, p.j));
    StepLookup(m, d, p.v, p.j, k);
  }

  /** The guard one step ahead is defined, and in BUSY it is the guard of the next loop state. */
  lemma StayValue(m: Machine, d: Derivation, s: Env, p: Phase)
    requires DistinctNames(m, d) && Schedules(m, d) && ReadsRight(m, d) && NeverX(m, d) && YesNo(m)
    requires Ready(m, d, s, p)
    ensures Eval(Stay(m), s).V?
    ensures p.Busy? ==> Eval(Stay(m), s) == Truth(Holds(d.guard, LoopState(d, p.v, p.j + 1)))
  {
    var after := Overlay(s, BodyMap(m));
    SubstIsUpdate(m.guard, BodyMap(m), s);
    forall x | x in RegNames(m)
      ensures Lookup(after, x).V?
      ensures p.Busy? ==> Lookup(after, x) == Lookup(LoopState(d, p.v, p.j + 1), x)
    {
      var k :| 0 <= k < |m.regs| && m.regs[k].name == x;
      StayReg(m, d, s, p, k);
    }
    assert DefinedAt(after, RegNames(m));
    if p.Busy? {
      SeesRegs(m, m.guard, after, LoopState(d, p.v, p.j + 1));
    }
  }

  /** The control chain, given what its conditions say. */
  lemma ControlSelects(m: Machine, s: Env, load: bool, c: nat)
    requires Eval(Load(m), s) == Truth(load) && Lookup(s, m.state) == V(c) && Eval(Stay(m), s).V?
    ensures Eval(StateNext(m), s) ==
      V(if load then 1 else if c == 1 then (if Eval(Stay(m), s).n != 0 then 1 else 2) else 0)
  {
    assert Eval(StateIs(m, 1), s) == Truth(c == 1);
    assert Eval(StateIs(m, 2), s) == Truth(c == 2);
    var inner := Ite(StateIs(m, 2), Const(0), Const(0));
    assert Eval(inner, s) == V(0);
    var third := Ite(StateIs(m, 1), Const(2), inner);
    assert Eval(third, s) == V(if c == 1 then 2 else 0);
    var test := Bin(And, StateIs(m, 1), Stay(m));
    assert Eval(test, s) == Truth(c == 1 && Eval(Stay(m), s).n != 0);
    assert Eval(StateNext(m), s) == Choose(Truth(load), V(1), Choose(Eval(test, s), V(1), Eval(third, s)));
  }

  lemma StateNextValue(m: Machine, d: Derivation, s: Env, p: Phase)
    requires DistinctNames(m, d) && Schedules(m, d) && ReadsRight(m, d) && NeverX(m, d) && YesNo(m)
    requires Ready(m, d, s, p)
    ensures Eval(StateNext(m), s) == V(Code(Next(d, p, Started(m, s), OperandsIn(d, s))))
  {
    LoadValue(m, d, s, p);
    StayValue(m, d, s, p);
    ControlSelects(m, s, !p.Busy? && Started(m, s), Code(p));
  }

  /** The flattened chain is the body while BUSY and the held value otherwise. */
  lemma {:induction false} BusyChainValue(m: Machine, pairs: seq<(Expr, Expr)>, dflt: Expr, hold: Expr, s: Env, busy: bool)
    requires Eval(StateIs(m, 1), s) == Truth(busy)
    requires forall i | 0 <= i < |pairs| :: Eval(pairs[i].0, s).V?
    ensures Eval(BusyChain(m, pairs, dflt, hold), s) == if busy then Eval(Fold(pairs, dflt), s) else Eval(hold, s)
    decreases |pairs|
  {
    if pairs != [] {
      BusyChainValue(m, pairs[1..], dflt, hold, s, busy);
      var g := pairs[0].0;
      assert Eval(Bin(And, StateIs(m, 1), g), s) == Truth(busy && Eval(g, s).n != 0);
    }
  }

  lemma SampledEnv(m: Machine, d: Derivation, s: Env, x: Name)
    requires DistinctNames(m, d) && OperandsReady(m, d, s) && x in InputNamesOf(d)
    ensures SameAt(s, InputEnv(d.inputs, OperandsIn(d, s)), x) && Lookup(s, x).V?
  {
    var k :| 0 <= k < |d.inputs| && d.inputs[k].0 == x;
    InputEnvLookup(d.inputs, OperandsIn(d, s), k);
  }

  lemma InitValue(m: Machine, d: Derivation, s: Env, k: nat)
    requires DistinctNames(m, d) && Schedules(m, d) && ReadsRight(m, d) && NeverX(m, d)
    requires OperandsReady(m, d, s) && k < |m.regs|
    ensures Eval(m.regs[k].init, s) == Lookup(Entry(d, OperandsIn(d, s)), m.regs[k].name)
    ensures Eval(m.regs[k].init, s).V?
  {
    var r := m.regs[k];
    var i :| 0 <= i < |d.init| && d.init[i] == (r.name, r.init);
    forall x | x in InputNamesOf(d)
      ensures SameAt(s, InputEnv(d.inputs, OperandsIn(d, s)), x) && Lookup(s, x).V?
    {
      SampledEnv(m, d, s, x);
    }
    EvalSees(r.init, s, InputEnv(d.inputs, OperandsIn(d, s)));
    EntryLookup(m, d, OperandsIn(d, s), k);
    assert DefinedAt(s, InputNamesOf(d));
  }

  /** Load, step or hold: the chain of one register, given what its conditions say. */
  lemma RegNextSelects(m: Machine, r: LoopReg, s: Env, load: bool, busy: bool)
    requires Eval(Load(m), s) == Truth(load) && Eval(StateIs(m, 1), s) == Truth(busy)
    requires forall i | 0 <= i < |r.pairs| :: Eval(r.pairs[i].0, s).V?
    ensures Eval(RegNext(m, r), s) ==
      if load then Eval(r.init, s) else if busy then Eval(BodyOf(r), s) else Lookup(s, r.name)
  {
    BusyChainValue(m, r.pairs, r.dflt, Var(r.name), s, busy);
  }

  lemma PairsDefined(m: Machine, d: Derivation, s: Env, k: nat)
    requires NeverX(m, d) && DefinedAt(s, RegNames(m)) && k < |m.regs|
    ensures forall i | 0 <= i < |m.regs[k].pairs| :: Eval(m.regs[k].pairs[i].0, s).V?
    ensures Eval(BodyOf(m.regs[k]), s).V?
  {
  }

  /** In BUSY a body read off the circuit is the register one loop step later. */
  lemma BodyIsStep(m: Machine, d: Derivation, s: Env, p: Phase, k: nat)
    requires DistinctNames(m, d) && Schedules(m, d) && ReadsRight(m, d)
    requires Ready(m, d, s, p) && p.Busy? && k < |m.regs|
    ensures Eval(BodyOf(m.regs[k]), s) == Lookup(LoopState(d, p.v, p.j + 1), m.regs[k].name)
  {
    SeesRegs(m, BodyOf(m.regs[k]), s, LoopState(d, p.v, p.j));
    StepLookup(m, d, p.v, p.j, k);
  }

  /** What the next phase holds in a register: a fresh load, a loop step, or what it held. */
  lemma NextContent(d: Derivation, p: Phase, start: bool, ops: Row, x: Name)
    requires p.Busy? || p.Done? ==> |p.v| == |d.inputs|
    requires |ops| == |d.inputs|
    ensures Lookup(Content(d, Next(d, p, start, ops)), x) ==
      if !p.Busy? && start then Lookup(Entry(d, ops), x)
      else if p.Busy? then Lookup(LoopState(d, p.v, p.j + 1), x)
      else Lookup(Content(d, p), x)
  {
  }

  lemma RegNextValue(m: Machine, d: Derivation, s: Env, p: Phase, k: nat)
    requires DistinctNames(m, d) && Schedules(m, d) && ReadsRight(m, d) && NeverX(m, d)
    requires Ready(m, d, s, p) && k < |m.regs|
    ensures Eval(RegNext(m, m.regs[k]), s)
      == Lookup(Content(d, Next(d, p, Started(m, s), OperandsIn(d, s))), m.regs[k].name)
    ensures Eval(RegNext(m, m.regs[k]), s).V?
  {
    assert m.regs[k].name in RegNames(m);
    NextContent(d, p, Started(m, s), OperandsIn(d, s), m.regs[k].name);
    RegNextCases(m, d, s, p, k);
  }

  lemma ReadyDefined(m: Machine, d: Derivation, s: Env, p: Phase)
    requires Ready(m, d, s, p)
    ensures DefinedAt(s, RegNames(m)) && forall k | 0 <= k < |m.regs| :: Lookup(s, m.regs[k].name).V?
  {
    forall k | 0 <= k < |m.regs|
      ensures Lookup(s, m.regs[k].name).V?
    {
      assert m.regs[k].name in RegNames(m);
    }
  }

  lemma BusyValue(m: Machine, d: Derivation, s: Env, p: Phase)
    requires Ready(m, d, s, p)
    ensures Eval(StateIs(m, 1), s) == Truth(p.Busy?)
  {
  }

  lemma RegNextCases(m: Machine, d: Derivation, s: Env, p: Phase, k: nat)
    requires DistinctNames(m, d) && Schedules(m, d) && ReadsRight(m, d) && NeverX(m, d)
    requires Ready(m, d, s, p) && k < |m.regs|
    ensures var x := m.regs[k].name;
      Eval(RegNext(m, m.regs[k]), s) ==
        if !p.Busy? && Started(m, s) then Lookup(Entry(d, OperandsIn(d, s)), x)
        else if p.Busy? then Lookup(LoopState(d, p.v, p.j + 1), x)
        else Lookup(s, x)
    ensures Eval(RegNext(m, m.regs[k]), s).V?
  {
    LoadValue(m, d, s, p);
    InitValue(m, d, s, k);
    ReadyDefined(m, d, s, p);
    PairsDefined(m, d, s, k);
    BusyValue(m, d, s, p);
    RegNextSelects(m, m.regs[k], s, !p.Busy? && Started(m, s), p.Busy?);
    if p.Busy? {
      BodyIsStep(m, d, s, p, k);
    }
  }

  lemma OperandsInBox(m: Machine, d: Derivation, s: Env)
    requires OperandsReady(m, d, s)
    ensures InBox(OperandsIn(d, s), d.Sizes())
  {
  }

  lemma StillInside(d: Derivation, v: Row, j: nat, k: nat)
    requires |v| == |d.inputs| && ExitsAfter(d, v, k)
    requires forall i | 0 < i <= j :: Holds(d.guard, LoopState(d, v, i))
    ensures j < k
  {
    assert !Holds(d.guard, LoopState(d, v, k));
  }

  /** While the circuit repeats on `v`, the next step still fits the registers. */
  lemma StepFits(m: Machine, d: Derivation, widths: map<Name, int>, v: Row, j: nat)
    requires RunsAndFits(m, d, widths) && InBox(v, d.Sizes())
    requires forall i | 0 < i < j :: Holds(d.guard, LoopState(d, v, i))
    ensures FitsAt(m, widths, LoopState(d, v, j))
  {
    var k: nat :| RunsTo(m, d, widths, v, k);
    if j > 0 {
      StillInside(d, v, j - 1, k);
    }
  }

  /** The abstract machine stays within phases that make sense. */
  lemma NextPhase(d: Derivation, p: Phase, start: bool, ops: Row)
    requires PhaseOk(d, p) && InBox(ops, d.Sizes())
    ensures PhaseOk(d, Next(d, p, start, ops))
  {
  }

  /** Whatever the abstract machine holds next fits the registers. */
  lemma NextFits(m: Machine, d: Derivation, widths: map<Name, int>, p: Phase, start: bool, ops: Row)
    requires RunsAndFits(m, d, widths) && PhaseOk(d, p) && InBox(ops, d.Sizes())
    ensures var q := Next(d, p, start, ops); q.Busy? || q.Done? ==> FitsAt(m, widths, Content(d, q))
  {
    match p
    case Busy(v, j) => StepFits(m, d, widths, v, j + 1);
    case _ => StepFits(m, d, widths, ops, 0);
  }

  lemma NextOk(m: Machine, d: Derivation, cfg: Config, s: Env, p: Phase)
    requires Sound(m, d, cfg) && Ready(m, d, s, p)
    ensures PhaseOk(d, Next(d, p, Started(m, s), OperandsIn(d, s)))
    ensures var q := Next(d, p, Started(m, s), OperandsIn(d, s));
      q.Busy? || q.Done? ==> FitsAt(m, cfg.widths, Content(d, q))
  {
    OperandsInBox(m, d, s);
    NextPhase(d, p, Started(m, s), OperandsIn(d, s));
    NextFits(m, d, cfg.widths, p, Started(m, s), OperandsIn(d, s));
  }

  // ---------------------------------------------------------------------------
  // One edge of the simulator
  // ---------------------------------------------------------------------------

  lemma DoneSettles(m: Machine, d: Derivation, cfg: Config, s: Env)
    requires DistinctNames(m, d) && Circuit(m, d, cfg)
    ensures forall x | x != m.done :: SameAt(Settle(cfg, s), s, x)
    ensures Lookup(s, m.state).V? ==> Lookup(Settle(cfg, s), m.done) == Truth(Lookup(s, m.state) == V(2))
  {
    var defs := cfg.comb;
    var rank := map[m.done := 0];
    assert defs[0] == (m.done, StateIs(m, 2));
    assert Targets(defs) == {m.done};
    assert Reads(StateIs(m, 2)) == {m.state};
    assert Ranked(defs, rank);
    SettleSettles(cfg, s);
    assert SettledAt(defs, cfg.widths, Settle(cfg, s), 0);
    assert SameAt(Settle(cfg, s), s, m.state);
    assert Pow2(1) == 2;
    if Lookup(s, m.state).V? {
      assert Eval(StateIs(m, 2), Settle(cfg, s)) == Truth(Lookup(s, m.state) == V(2));
      assert WidthOf(cfg.widths, m.done) == Some(1);
    }
  }

  lemma ClockedShape(m: Machine)
    ensures var us := ClockedUpdates(m);
      && |us| == |m.regs| + 1 && us[0] == (Reg(m.state), StateNext(m))
      && forall k | 0 <= k < |m.regs| :: us[k + 1] == (Reg(m.regs[k].name), RegNext(m, m.regs[k]))
  {
  }

  lemma ClockedDistinct(m: Machine, d: Derivation)
    requires DistinctNames(m, d)
    ensures RegsOnly(ClockedUpdates(m)) && DistinctBases(ClockedUpdates(m))
  {
    var us := ClockedUpdates(m);
    ClockedShape(m);
    forall i, j | 0 <= i < j < |us|
      ensures us[i].0.Base() != us[j].0.Base()
    {
      assert us[j].0 == Reg(m.regs[j - 1].name) && m.regs[j - 1].name in RegNames(m);
      if i > 0 {
        assert us[i].0 == Reg(m.regs[i - 1].name);
      }
    }
  }

  lemma ClockedBases(m: Machine, x: Name)
    requires x != m.state && x !in RegNames(m)
    ensures x !in BasesOf(ClockedUpdates(m))
  {
    var us := ClockedUpdates(m);
    forall i | 0 <= i < |us|
      ensures us[i].0.Base() != x
    {
      if i > 0 {
        assert m.regs[i - 1].name in RegNames(m);
      }
    }
  }

  lemma ClockedLookup(m: Machine, d: Derivation, cfg: Config, s: Env, x: Name)
    requires DistinctNames(m, d) && Circuit(m, d, cfg)
    ensures var us := ClockedUpdates(m);
      && (x !in BasesOf(us) ==> SameAt(ClockedEdge(cfg, s), s, x))
      && forall k | 0 <= k < |us| && us[k].0 == Reg(x) :: Lookup(ClockedEdge(cfg, s), x) == NewValue(cfg.widths, s, x, us[k].1)
  {
    var us := ClockedUpdates(m);
    ClockedDistinct(m, d);
    NoCellsLand(cfg.widths, LandRegs(cfg.widths, s, s, us), s, us);
    LandRegsLookup(cfg.widths, s, s, us, x);
  }

  lemma ClockedLands(m: Machine, d: Derivation, cfg: Config, s: Env, x: Name)
    requires DistinctNames(m, d) && Circuit(m, d, cfg)
    ensures x != m.state && x !in RegNames(m) ==> SameAt(ClockedEdge(cfg, s), s, x)
    ensures x == m.state ==> Lookup(ClockedEdge(cfg, s), x) == NewValue(cfg.widths, s, x, StateNext(m))
    ensures forall k | 0 <= k < |m.regs| && m.regs[k].name == x ::
      Lookup(ClockedEdge(cfg, s), x) == NewValue(cfg.widths, s, x, RegNext(m, m.regs[k]))
  {
    var us := ClockedUpdates(m);
    ClockedShape(m);
    ClockedLookup(m, d, cfg, s, x);
    if x != m.state && x !in RegNames(m) {
      ClockedBases(m, x);
    }
    forall k | 0 <= k < |m.regs| && m.regs[k].name == x
      ensures Lookup(ClockedEdge(cfg, s), x) == NewValue(cfg.widths, s, x, RegNext(m, m.regs[k]))
    {
      assert us[k + 1].0 == Reg(x);
    }
  }

  /** Driving the inputs changes no register and no control signal. */
  lemma InputsKeep(m: Machine, d: Derivation, cfg: Config, s: Env, inputs: Vector, x: Name)
    requires GoodVector(m, d, inputs) && x in RegNames(m) + {m.state, m.done}
    ensures SameAt(SetInputs(cfg, s, inputs), s, x)
  {
  }

  lemma InputsReady(m: Machine, d: Derivation, cfg: Config, s: Env, inputs: Vector)
    requires GoodVector(m, d, inputs) && OperandsReady(m, d, s)
    ensures OperandsReady(m, d, SetInputs(cfg, s, inputs))
  {
  }

  lemma SeenReady(m: Machine, d: Derivation, cfg: Config, s: Env, inputs: Vector, p: Phase)
    requires Sound(m, d, cfg) && Shows(m, d, cfg.widths, s, p)
    requires OperandsReady(m, d, s) && GoodVector(m, d, inputs)
    ensures Ready(m, d, Seen(cfg, s, inputs), p)
  {
    var s1 := SetInputs(cfg, s, inputs);
    var s2 := Seen(cfg, s, inputs);
    InputsReady(m, d, cfg, s, inputs);
    DoneSettles(m, d, cfg, s1);
    forall x | x in RegNames(m) + {m.state}
      ensures SameAt(s2, s, x)
    {
      InputsKeep(m, d, cfg, s, inputs, x);
      assert SameAt(s2, s1, x);
    }
    assert SameAt(s2, s1, m.start);
    forall k | 0 <= k < |d.inputs|
      ensures Lookup(s2, d.inputs[k].0) == Lookup(s1, d.inputs[k].0)
    {
      assert d.inputs[k].0 in InputNamesOf(d);
      assert SameAt(s2, s1, d.inputs[k].0);
    }
    forall x | x in RegNames(m)
      ensures Lookup(s2, x) == Lookup(Content(d, p), x) && Lookup(s2, x).V?
    {
      assert SameAt(s2, s, x);
    }
    assert SameAt(s2, s, m.state);
  }

  lemma StateLands(m: Machine, d: Derivation, cfg: Config, s2: Env, p: Phase)
    requires Sound(m, d, cfg) && Ready(m, d, s2, p)
    ensures Lookup(ClockedEdge(cfg, s2), m.state) == V(Code(Next(d, p, Started(m, s2), OperandsIn(d, s2))))
  {
    StateNextValue(m, d, s2, p);
    ClockedLands(m, d, cfg, s2, m.state);
    CodeFits(Code(Next(d, p, Started(m, s2), OperandsIn(d, s2))));
  }

  lemma CodeFits(c: nat)
    requires c <= 2
    ensures Mask(V(c), Some(2)) == V(c)
  {
    assert Pow2(2) == 4;
    SmallMod(c, 4);
  }

  /** After the commit the settled circuit shows the next phase. */
  lemma CommitShows(m: Machine, d: Derivation, cfg: Config, s: Env, s2: Env, p: Phase)
    requires Sound(m, d, cfg) && Shows(m, d, cfg.widths, s, p) && Ready(m, d, s2, p)
    ensures Shows(m, d, cfg.widths, Settle(cfg, ClockedEdge(cfg, s2)), Next(d, p, Started(m, s2), OperandsIn(d, s2)))
  {
    var q := Next(d, p, Started(m, s2), OperandsIn(d, s2));
    var s3 := ClockedEdge(cfg, s2);
    var s4 := Settle(cfg, s3);
    NextOk(m, d, cfg, s2, p);
    StateLands(m, d, cfg, s2, p);
    DoneSettles(m, d, cfg, s3);
    assert SameAt(s4, s3, m.state);
    forall x | x in RegNames(m)
      ensures Lookup(s4, x) == Lookup(Content(d, q), x) && Lookup(s4, x).V?
      ensures Mask(Lookup(s4, x), WidthOf(cfg.widths, x)) == Lookup(s4, x)
    {
      assert SameAt(s4, s3, x);
      RegLands(m, d, cfg, s, s2, p, x);
    }
  }

  /** One ordinary edge moves the circuit exactly as the abstract machine moves. */
  lemma EdgeSteps(m: Machine, d: Derivation, cfg: Config, s: Env, inputs: Vector, p: Phase)
    requires Sound(m, d, cfg) && Shows(m, d, cfg.widths, s, p)
    requires OperandsReady(m, d, s) && GoodVector(m, d, inputs)
    ensures var s2 := Seen(cfg, s, inputs);
      && Ready(m, d, s2, p)
      && Shows(m, d, cfg.widths, Edge(cfg, s, inputs, false), Next(d, p, Started(m, s2), OperandsIn(d, s2)))
      && OperandsReady(m, d, Edge(cfg, s, inputs, false))
  {
    var s2 := Seen(cfg, s, inputs);
    SeenReady(m, d, cfg, s, inputs, p);
    CommitShows(m, d, cfg, s, s2, p);
    HoldOperands(m, d, cfg, s2, ClockedEdge(cfg, s2), Settle(cfg, ClockedEdge(cfg, s2)));
  }

  /** The commit of one loop register loses no bit. */
  lemma RegLands(m: Machine, d: Derivation, cfg: Config, s: Env, s2: Env, p: Phase, x: Name)
    requires Sound(m, d, cfg) && Shows(m, d, cfg.widths, s, p) && Ready(m, d, s2, p) && x in RegNames(m)
    ensures var q := Next(d, p, Started(m, s2), OperandsIn(d, s2));
      var v := Lookup(ClockedEdge(cfg, s2), x);
      v == Lookup(Content(d, q), x) && v.V? && Mask(v, WidthOf(cfg.widths, x)) == v
  {
    var q := Next(d, p, Started(m, s2), OperandsIn(d, s2));
    var k :| 0 <= k < |m.regs| && m.regs[k].name == x;
    RegNextValue(m, d, s2, p, k);
    ClockedLands(m, d, cfg, s2, x);
    NextOk(m, d, cfg, s2, p);
  }

  lemma HoldOperands(m: Machine, d: Derivation, cfg: Config, s2: Env, s3: Env, s4: Env)
    requires DistinctNames(m, d) && Circuit(m, d, cfg) && OperandsReady(m, d, s2)
    requires s3 == ClockedEdge(cfg, s2) && s4 == Settle(cfg, s3)
    ensures OperandsReady(m, d, s4)
  {
    DoneSettles(m, d, cfg, s3);
    ClockedLands(m, d, cfg, s2, m.start);
    assert SameAt(s4, s3, m.start);
    forall k | 0 <= k < |d.inputs|
      ensures Lookup(s4, d.inputs[k].0) == Lookup(s2, d.inputs[k].0)
    {
      assert d.inputs[k].0 in InputNamesOf(d);
      ClockedLands(m, d, cfg, s2, d.inputs[k].0);
      assert SameAt(s4, s3, d.inputs[k].0);
    }
  }

  // ---------------------------------------------------------------------------
  // Reset
  // ---------------------------------------------------------------------------

  /** The registers as the reset action loads them. */
  function ResetEnv(cfg: Config): Env {
    LandRegs(cfg.widths, map[], map[], ResetTargets(cfg, cfg.reset))
  }

  lemma ResetLands(cfg: Config, s: Env, x: Name, n: nat)
    requires RegsOnly(ResetTargets(cfg, cfg.reset)) && DistinctBases(ResetTargets(cfg, cfg.reset))
    requires (Reg(x), Const(n)) in ResetTargets(cfg, cfg.reset)
    ensures Lookup(ResetEdge(cfg, s), x) == Mask(V(n), WidthOf(cfg.widths, x)) == Lookup(ResetEnv(cfg), x)
  {
    var us := ResetTargets(cfg, cfg.reset);
    var k :| 0 <= k < |us| && us[k] == (Reg(x), Const(n));
    LandRegsLookup(cfg.widths, s, s, us, x);
    LandRegsLookup(cfg.widths, map[], map[], us, x);
    assert us[k].0 == Reg(x);
  }

  /** A reset edge leaves the machine idle with the reset values, whatever the state before. */
  lemma ResetIdles(m: Machine, d: Derivation, cfg: Config, s: Env, inputs: Vector)
    requires Sound(m, d, cfg)
    requires OperandsReady(m, d, SetInputs(cfg, s, inputs))
    ensures Shows(m, d, cfg.widths, Edge(cfg, s, inputs, true), Idle(ResetEnv(cfg)))
    ensures OperandsReady(m, d, Edge(cfg, s, inputs, true))
  {
    var us := ResetTargets(cfg, cfg.reset);
    var s1 := SetInputs(cfg, s, inputs);
    var s2 := Seen(cfg, s, inputs);
    var s3 := ResetEdge(cfg, s2);
    var s4 := Settle(cfg, s3);
    DoneSettles(m, d, cfg, s1);
    DoneSettles(m, d, cfg, s3);
    ResetLands(cfg, s2, m.state, 0);
    assert SameAt(s4, s3, m.state);
    forall x | x in RegNames(m)
      ensures Lookup(s4, x) == Lookup(ResetEnv(cfg), x) && Lookup(s4, x).V?
      ensures Mask(Lookup(s4, x), WidthOf(cfg.widths, x)) == Lookup(s4, x)
    {
      var n :| (Reg(x), Const(n)) in us;
      ResetLands(cfg, s2, x, n);
      assert SameAt(s4, s3, x);
      MaskIdempotent(V(n), WidthOf(cfg.widths, x));
    }
    forall x | x in InputNamesOf(d) + {m.start}
      ensures Lookup(s4, x) == Lookup(s1, x)
    {
      assert SameAt(s2, s1, x);
      LandRegsLookup(cfg.widths, s2, s2, us, x);
      assert SameAt(s4, s3, x);
    }
    forall k | 0 <= k < |d.inputs|
      ensures Lookup(s4, d.inputs[k].0) == Lookup(s1, d.inputs[k].0)
    {
      assert d.inputs[k].0 in InputNamesOf(d);
    }
  }
}
