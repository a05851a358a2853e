/**
  The cycle-accurate reference simulator of a refined spec: drive the inputs, settle the
  combinational definitions, commit the registers and memories of one rising edge, settle again.
  The class is proved against pure functions of the state; for those, the combinational sweeps
  are proved to settle.
  */
module Simulator {
  import opened Expressions

  /** What a composed update assigns: a register, or one cell of a memory. */
  datatype Lhs = Reg(x: Name) | Elem(base: Name, idx: Expr) {
    function Base(): Name {
      if Reg? then x else base
    }
  }

  type Vector = map<Name, Value>

  /** What the constructor digests from a spec. */
  datatype Config = Config(
    resetPort: Name, activeLow: bool, widths: map<Name, int>, regVars: set<Name>,
    clocked: seq<(Lhs, Expr)>, comb: Updates, reset: seq<(Lhs, Expr)>)

  const CLK: Name := "clk"

  // ---------------------------------------------------------------------------
  // One edge, as functions of the state
  // ---------------------------------------------------------------------------

  function Driven(cfg: Config, inputs: Vector): Vector {
    map k | k in inputs && k != CLK && k != cfg.resetPort :: inputs[k]
  }

  /** Inputs are not masked; a name the vector does not drive keeps its value. */
  function SetInputs(cfg: Config, s: Env, inputs: Vector): Env {
    s + map k | k in Driven(cfg, inputs) :: Scalar(inputs[k])
  }

  function Put(s: Env, x: Name, v: Value): Env {
    if v == Lookup(s, x) then s else s[x := Scalar(v)]
  }

  function NewValue(widths: map<Name, int>, s: Env, x: Name, e: Expr): Value {
    Mask(Eval(e, s), WidthOf(widths, x))
  }

  /** The first `j` definitions of one sweep, each committing in place. */
  function SweepTo(defs: Updates, widths: map<Name, int>, s: Env, j: nat): Env
    requires j <= |defs|
  {
    if j == 0 then s
    else
      var t := SweepTo(defs, widths, s, j - 1);
      Put(t, defs[j - 1].0, NewValue(widths, t, defs[j - 1].0, defs[j - 1].1))
  }

  function Sweep(defs: Updates, widths: map<Name, int>, s: Env): Env {
    SweepTo(defs, widths, s, |defs|)
  }

  function Sweeps(defs: Updates, widths: map<Name, int>, s: Env, n: nat): Env {
    if n == 0 then s else Sweep(defs, widths, Sweeps(defs, widths, s, n - 1))
  }

  /** Combinational outputs settled by one sweep more than there are definitions. */
  function Settle(cfg: Config, s: Env): Env {
    Sweeps(cfg.comb, cfg.widths, s, |cfg.comb| + 1)
  }

  /** Register targets of `us`, every right-hand side read in `pre` and masked. */
  function LandRegs(widths: map<Name, int>, base: Env, pre: Env, us: seq<(Lhs, Expr)>): Env
    decreases us
  {
    if us == [] then base
    else
      var next := match us[0].0
        case Reg(x) => base[x := Scalar(NewValue(widths, pre, x, us[0].1))]
        case Elem(_, _) => base;
      LandRegs(widths, next, pre, us[1..])
  }

  function WriteCell(s: Env, base: Name, idx: Value, v: Value): Env {
    if base in s && s[base].Memory? && idx.V? && idx.n < |s[base].cells|
    then s[base := Memory(s[base].cells[idx.n := v])]
    else s
  }

  /** Memory targets of `us`, after the registers and in order. */
  function LandCells(widths: map<Name, int>, s: Env, pre: Env, us: seq<(Lhs, Expr)>): Env
    decreases us
  {
    if us == [] then s
    else
      var next := match us[0].0
        case Reg(_) => s
        case Elem(b, i) => WriteCell(s, b, Eval(i, pre), NewValue(widths, pre, b, us[0].1));
      LandCells(widths, next, pre, us[1..])
  }

  function ClockedEdge(cfg: Config, s: Env): Env {
    LandCells(cfg.widths, LandRegs(cfg.widths, s, s, cfg.clocked), s, cfg.clocked)
  }

  /** Only register targets of the reset action are driven; memory and unlisted registers hold. */
  function ResetTargets(cfg: Config, us: seq<(Lhs, Expr)>): seq<(Lhs, Expr)> {
    if us == [] then []
    else
      var b := us[0].0.Base();
      (if b in cfg.regVars then [(Reg(b), us[0].1)] else []) + ResetTargets(cfg, us[1..])
  }

  function ResetEdge(cfg: Config, s: Env): Env {
    LandRegs(cfg.widths, s, s, ResetTargets(cfg, cfg.reset))
  }

  /** What an edge sees: the inputs driven, the combinational outputs settled. */
  function Seen(cfg: Config, s: Env, inputs: Vector): Env {
    Settle(cfg, SetInputs(cfg, s, inputs))
  }

  function Edge(cfg: Config, s: Env, inputs: Vector, isReset: bool): Env {
    var seen := Seen(cfg, s, inputs);
    Settle(cfg, if isReset then ResetEdge(cfg, seen) else ClockedEdge(cfg, seen))
  }

  function ResetAsserted(cfg: Config, inputs: Vector): bool {
    cfg.resetPort in inputs && inputs[cfg.resetPort].V? &&
    (if cfg.activeLow then inputs[cfg.resetPort].n == 0 else inputs[cfg.resetPort].n != 0)
  }

  function InputNames(cfg: Config, stimulus: seq<Vector>): set<Name> {
    (set i, k | 0 <= i < |stimulus| && k in stimulus[i] :: k) - {CLK, cfg.resetPort}
  }

  /** Every input of the stimulus held at 0, as during the reset pulse. */
  function Zeros(cfg: Config, stimulus: seq<Vector>): Vector {
    map k | k in InputNames(cfg, stimulus) :: V(0)
  }

  /** The row reported for a vector; an X output is left out. */
  function Observe(s: Env, ports: seq<Name>): map<Name, nat> {
    map p | p in ports && Lookup(s, p).V? :: Lookup(s, p).n
  }

  /**
    A run as it can be observed: `states[0]` follows the reset pulse; the edge of vector `i` sees
    `seen[i]`, resets if `resets[i]`, and leaves `states[i + 1]`.
    */
  datatype Trace = Trace(states: seq<Env>, seen: seq<Env>, resets: seq<bool>) {
    ghost predicate Shaped() {
      |states| == |seen| + 1 == |resets| + 1
    }

    function Length(): nat {
      |seen|
    }
  }

  ghost predicate StepsTo(cfg: Config, tr: Trace, inputs: Vector, i: nat)
    requires tr.Shaped() && i < tr.Length()
  {
    && tr.resets[i] == ResetAsserted(cfg, inputs)
    && tr.seen[i] == Seen(cfg, tr.states[i], inputs)
    && tr.states[i + 1] == Edge(cfg, tr.states[i], inputs, tr.resets[i])
  }

  /** The harness holds every input of the stimulus at 0 and pulses reset for one edge. */
  ghost predicate StartsWith(cfg: Config, s0: Env, zeros: Vector, s: Env) {
    s == Edge(cfg, Edge(cfg, s0, zeros, true), zeros, false)
  }

  /** `tr` is the run of the simulator on a stimulus, from the state `s0`. */
  ghost predicate IsRun(cfg: Config, s0: Env, stimulus: seq<Vector>, tr: Trace) {
    && tr.Shaped() && tr.Length() == |stimulus|
    && StartsWith(cfg, s0, Zeros(cfg, stimulus), tr.states[0])
    && forall i | 0 <= i < |stimulus| :: StepsTo(cfg, tr, stimulus[i], i)
  }

  // ---------------------------------------------------------------------------
  // The simulator
  // ---------------------------------------------------------------------------

  class SpecSimulator {
    const cfg: Config
    var state: Env

    constructor (cfg: Config, initial: Env)
      ensures this.cfg == cfg && state == initial
    {
      this.cfg := cfg;
      state := initial;
    }

    method RecomputeComb()
      modifies this
      ensures state == Settle(cfg, old(state))
    {
      ghost var s0 := state;
      var k := 0;
      while k < |cfg.comb| + 1
        invariant 0 <= k <= |cfg.comb| + 1
        invariant state == Sweeps(cfg.comb, cfg.widths, s0, k)
      {
        var changed := false;
        ghost var before := state;
        for j := 0 to |cfg.comb|
          invariant state == SweepTo(cfg.comb, cfg.widths, before, j)
          invariant !changed ==> state == before
        {
          var (x, e) := cfg.comb[j];
          var v := Mask(Eval(e, state), WidthOf(cfg.widths, x));
          if v != Lookup(state, x) {
            state := state[x := Scalar(v)];
            changed := true;
          }
        }
        k := k + 1;
        if !changed {
          StillSettled(cfg.comb, cfg.widths, s0, k, |cfg.comb| + 1);
          return;
        }
      }
    }

    method SetInputsOf(inputs: Vector)
      modifies this
      ensures state == SetInputs(cfg, old(state), inputs)
    {
      state := SetInputs(cfg, state, inputs);
    }

    method Commit(us: seq<(Lhs, Expr)>)
      modifies this
      ensures state == LandCells(cfg.widths, LandRegs(cfg.widths, old(state), old(state), us), old(state), us)
    {
      var pre := state;
      var regs := state;
      for k := 0 to |us|
        invariant LandRegs(cfg.widths, regs, pre, us[k..]) == LandRegs(cfg.widths, pre, pre, us)
      {
        assert us[k..][1..] == us[k + 1..];
        match us[k].0
        case Reg(x) => regs := regs[x := Scalar(NewValue(cfg.widths, pre, x, us[k].1))];
        case Elem(_, _) =>
      }
      state := regs;
      for k := 0 to |us|
        invariant LandCells(cfg.widths, state, pre, us[k..]) == LandCells(cfg.widths, regs, pre, us)
      {
        assert us[k..][1..] == us[k + 1..];
        match us[k].0
        case Reg(_) =>
        case Elem(b, i) =>
          state := WriteCell(state, b, Eval(i, pre), NewValue(cfg.widths, pre, b, us[k].1));
      }
    }

    method Step(inputs: Vector, isReset: bool)
      modifies this
      ensures state == Edge(cfg, old(state), inputs, isReset)
    {
      SetInputsOf(inputs);
      RecomputeComb();
      if isReset {
        var targets := ResetTargets(cfg, cfg.reset);
        ResetTargetsRegsOnly(cfg, cfg.reset);
        NoCellsLand(cfg.widths, LandRegs(cfg.widths, state, state, targets), state, targets);
        Commit(targets);
      } else {
        Commit(cfg.clocked);
      }
      RecomputeComb();
    }

    method Pulse(zeros: Vector)
      modifies this
      ensures state == Edge(cfg, Edge(cfg, old(state), zeros, true), zeros, false)
    {
      Step(zeros, true);
      Step(zeros, false);
    }

    /** The reset pulse, then one edge and one row per vector. */
    method Run(stimulus: seq<Vector>, ports: seq<Name>) returns (rows: seq<map<Name, nat>>, ghost tr: Trace)
      modifies this
      ensures IsRun(cfg, old(state), stimulus, tr)
      ensures |rows| == |stimulus|
      ensures forall i | 0 <= i < |rows| :: rows[i] == Observe(tr.states[i + 1], ports)
      ensures state == tr.states[|stimulus|]
    {
      ghost var s0 := state;
      Pulse(Zeros(cfg, stimulus));
      tr := Trace([state], [], []);
      rows := [];
      for i := 0 to |stimulus|
        invariant tr.Shaped() && tr.Length() == i && |rows| == i
        invariant state == tr.states[i]
        invariant StartsWith(cfg, s0, Zeros(cfg, stimulus), tr.states[0])
        invariant forall j | 0 <= j < i :: StepsTo(cfg, tr, stimulus[j], j)
        invariant forall j | 0 <= j < i :: rows[j] == Observe(tr.states[j + 1], ports)
      {
        ghost var before := state;
        var isReset := ResetAsserted(cfg, stimulus[i]);
        Step(stimulus[i], isReset);
        ghost var was := tr;
        tr := Trace(tr.states + [state], tr.seen + [Seen(cfg, before, stimulus[i])], tr.resets + [isReset]);
        StepsKept(cfg, was, tr, stimulus, i);
        rows := rows + [Observe(state, ports)];
      }
    }
  }

  lemma StepsKept(cfg: Config, was: Trace, tr: Trace, stimulus: seq<Vector>, n: nat)
    requires was.Shaped() && tr.Shaped() && was.Length() == n < |stimulus| && tr.Length() == n + 1
    requires was.states <= tr.states && was.seen <= tr.seen && was.resets <= tr.resets
    requires forall j | 0 <= j < n :: StepsTo(cfg, was, stimulus[j], j)
    requires StepsTo(cfg, tr, stimulus[n], n)
    ensures forall j | 0 <= j < n + 1 :: StepsTo(cfg, tr, stimulus[j], j)
  {
    forall j | 0 <= j < n
      ensures StepsTo(cfg, tr, stimulus[j], j)
    {
      assert StepsTo(cfg, was, stimulus[j], j);
    }
  }

  /** After a sweep that changed nothing, no later sweep changes anything. */
  lemma {:induction false} StillSettled(defs: Updates, widths: map<Name, int>, s: Env, k: nat, n: nat)
    requires 0 < k <= n && Sweeps(defs, widths, s, k) == Sweeps(defs, widths, s, k - 1)
    ensures Sweeps(defs, widths, s, n) == Sweeps(defs, widths, s, k)
    decreases n
  {
    if k < n {
      StillSettled(defs, widths, s, k, n - 1);
      assert Sweeps(defs, widths, s, n) == Sweep(defs, widths, Sweeps(defs, widths, s, k - 1));
    }
  }

  predicate RegsOnly(us: seq<(Lhs, Expr)>) {
    forall k | 0 <= k < |us| :: us[k].0.Reg?
  }

  lemma {:induction false} NoCellsLand(widths: map<Name, int>, s: Env, pre: Env, us: seq<(Lhs, Expr)>)
    requires RegsOnly(us)
    ensures LandCells(widths, s, pre, us) == s
    decreases us
  {
    if us != [] {
      NoCellsLand(widths, s, pre, us[1..]);
    }
  }

  lemma {:induction false} ResetTargetsRegsOnly(cfg: Config, us: seq<(Lhs, Expr)>)
    ensures RegsOnly(ResetTargets(cfg, us))
    decreases us
  {
    if us != [] {
      ResetTargetsRegsOnly(cfg, us[1..]);
    }
  }

  function BasesOf(us: seq<(Lhs, Expr)>): set<Name> {
    set k | 0 <= k < |us| :: us[k].0.Base()
  }

  ghost predicate DistinctBases(us: seq<(Lhs, Expr)>) {
    forall i, j | 0 <= i < j < |us| :: us[i].0.Base() != us[j].0.Base()
  }

  /** A register takes the masked value of its right-hand side in the old state; the others keep theirs. */
  lemma {:induction false} LandRegsLookup(widths: map<Name, int>, base: Env, pre: Env, us: seq<(Lhs, Expr)>, x: Name)
    requires RegsOnly(us) && DistinctBases(us)
    ensures x !in BasesOf(us) ==> SameAt(LandRegs(widths, base, pre, us), base, x)
    ensures forall k | 0 <= k < |us| && us[k].0 == Reg(x) ::
      Lookup(LandRegs(widths, base, pre, us), x) == NewValue(widths, pre, x, us[k].1)
    decreases us
  {
    if us != [] {
      var y := us[0].0.x;
      var next := base[y := Scalar(NewValue(widths, pre, y, us[0].1))];
      LandRegsLookup(widths, next, pre, us[1..], x);
      assert forall k | 0 < k < |us| :: us[k] == us[1..][k - 1];
      if x !in BasesOf(us) {
        assert us[0].0.Base() in BasesOf(us);
        assert x !in BasesOf(us[1..]);
      } else if x == y {
        assert x !in BasesOf(us[1..]);
      }
    }
  }

  // ---------------------------------------------------------------------------
  // Combinational settling
  // ---------------------------------------------------------------------------

  /** A rank below the number of definitions that falls along every dependency between them. */
  ghost predicate Ranked(defs: Updates, rank: map<Name, nat>) {
    && Targets(defs) <= rank.Keys
    && (forall k | 0 <= k < |defs| :: rank[defs[k].0] < |defs|)
    && (forall k, y | 0 <= k < |defs| && y in Reads(defs[k].1) && y in Targets(defs) ::
          rank[y] < rank[defs[k].0])
  }

  ghost predicate Acyclic(defs: Updates) {
    DistinctTargets(defs) && exists rank :: Ranked(defs, rank)
  }

  ghost predicate SettledAt(defs: Updates, widths: map<Name, int>, s: Env, k: nat)
    requires k < |defs|
  {
    Lookup(s, defs[k].0) == NewValue(widths, s, defs[k].0, defs[k].1)
  }

  ghost predicate Settled(defs: Updates, widths: map<Name, int>, s: Env) {
    forall k | 0 <= k < |defs| :: SettledAt(defs, widths, s, k)
  }

  ghost predicate SettledBelow(defs: Updates, widths: map<Name, int>, rank: map<Name, nat>, s: Env, r: nat)
    requires Targets(defs) <= rank.Keys
  {
    forall k | 0 <= k < |defs| && rank[defs[k].0] < r :: SettledAt(defs, widths, s, k)
  }

  ghost predicate Fixed(defs: Updates, rank: map<Name, nat>, r: nat, y: Name)
    requires Targets(defs) <= rank.Keys
  {
    y in Targets(defs) ==> rank[y] < r
  }

  /** Within a sweep, what is settled stays put and the next rank gets its final value. */
  lemma {:induction false} SweepKeeps(defs: Updates, widths: map<Name, int>, rank: map<Name, nat>, s: Env, r: nat, j: nat)
    requires DistinctTargets(defs) && Ranked(defs, rank) && j <= |defs|
    requires SettledBelow(defs, widths, rank, s, r)
    ensures forall y | Fixed(defs, rank, r, y) :: SameAt(SweepTo(defs, widths, s, j), s, y)
    ensures forall k | 0 <= k < j && rank[defs[k].0] == r ::
      Lookup(SweepTo(defs, widths, s, j), defs[k].0) == NewValue(widths, s, defs[k].0, defs[k].1)
    decreases j
  {
    if j > 0 {
      SweepKeeps(defs, widths, rank, s, r, j - 1);
      var t := SweepTo(defs, widths, s, j - 1);
      var x, e := defs[j - 1].0, defs[j - 1].1;
      assert x in Targets(defs);
      if rank[x] <= r {
        forall y | y in Reads(e)
          ensures SameAt(t, s, y)
        {
          assert Fixed(defs, rank, r, y);
        }
        EvalSees(e, t, s);
        if rank[x] < r {
          assert SettledAt(defs, widths, s, j - 1);
          assert SameAt(t, s, x) by { assert Fixed(defs, rank, r, x); }
        }
      }
    }
  }

  lemma SweepSettlesMore(defs: Updates, widths: map<Name, int>, rank: map<Name, nat>, s: Env, r: nat)
    requires DistinctTargets(defs) && Ranked(defs, rank) && SettledBelow(defs, widths, rank, s, r)
    ensures SettledBelow(defs, widths, rank, Sweep(defs, widths, s), r + 1)
  {
    var t := Sweep(defs, widths, s);
    SweepKeeps(defs, widths, rank, s, r, |defs|);
    forall k | 0 <= k < |defs| && rank[defs[k].0] < r + 1
      ensures SettledAt(defs, widths, t, k)
    {
      var x, e := defs[k].0, defs[k].1;
      forall y | y in Reads(e)
        ensures SameAt(t, s, y)
      {
        assert Fixed(defs, rank, r, y);
      }
      EvalSees(e, t, s);
      if rank[x] < r {
        assert SettledAt(defs, widths, s, k);
        assert Fixed(defs, rank, r, x);
      }
    }
  }

  lemma {:induction false} SweepsSettle(defs: Updates, widths: map<Name, int>, rank: map<Name, nat>, s: Env, n: nat)
    requires DistinctTargets(defs) && Ranked(defs, rank)
    ensures SettledBelow(defs, widths, rank, Sweeps(defs, widths, s, n), n)
  {
    if n > 0 {
      SweepsSettle(defs, widths, rank, s, n - 1);
      SweepSettlesMore(defs, widths, rank, Sweeps(defs, widths, s, n - 1), n - 1);
    }
  }

  lemma {:induction false} SweepFrame(defs: Updates, widths: map<Name, int>, s: Env, j: nat, y: Name)
    requires j <= |defs| && y !in Targets(defs)
    ensures SameAt(SweepTo(defs, widths, s, j), s, y)
    decreases j
  {
    if j > 0 {
      SweepFrame(defs, widths, s, j - 1, y);
      assert defs[j - 1].0 in Targets(defs);
    }
  }

  lemma {:induction false} SweepsFrame(defs: Updates, widths: map<Name, int>, s: Env, n: nat, y: Name)
    requires y !in Targets(defs)
    ensures SameAt(Sweeps(defs, widths, s, n), s, y)
  {
    if n > 0 {
      SweepsFrame(defs, widths, s, n - 1, y);
      SweepFrame(defs, widths, Sweeps(defs, widths, s, n - 1), |defs|, y);
    }
  }

  /**
    Acyclic definitions settle: afterwards every combinational signal is the masked value of its
    own definition, and nothing else has moved.
    */
  lemma SettleSettles(cfg: Config, s: Env)
    requires Acyclic(cfg.comb)
    ensures Settled(cfg.comb, cfg.widths, Settle(cfg, s))
    ensures forall y | y !in Targets(cfg.comb) :: SameAt(Settle(cfg, s), s, y)
  {
    var rank :| Ranked(cfg.comb, rank);
    var n := |cfg.comb| + 1;
    SweepsSettle(cfg.comb, cfg.widths, rank, s, n);
    forall y | y !in Targets(cfg.comb)
      ensures SameAt(Settle(cfg, s), s, y)
    {
      SweepsFrame(cfg.comb, cfg.widths, s, n, y);
    }
  }

  lemma {:induction false} SettledValuesAgree(defs: Updates, defs': Updates, widths: map<Name, int>,
                                              rank: map<Name, nat>, a: Env, b: Env, k: nat)
    requires DistinctTargets(defs) && Ranked(defs, rank) && k < |defs|
    requires forall i | 0 <= i < |defs| :: defs[i] in defs'
    requires Targets(defs') == Targets(defs)
    requires Settled(defs, widths, a) && Settled(defs', widths, b)
    requires forall y | y !in Targets(defs) :: SameAt(a, b, y)
    requires forall y | y in Targets(defs) :: CellsOf(a, y) == CellsOf(b, y)
    ensures Lookup(a, defs[k].0) == Lookup(b, defs[k].0)
    decreases rank[defs[k].0]
  {
    var e := defs[k].1;
    forall y | y in Reads(e)
      ensures SameAt(a, b, y)
    {
      if y in Targets(defs) {
        var i :| 0 <= i < |defs| && defs[i].0 == y;
        SettledValuesAgree(defs, defs', widths, rank, a, b, i);
      }
    }
    EvalSees(e, a, b);
    var i' :| 0 <= i' < |defs'| && defs'[i'] == defs[k];
    assert SettledAt(defs, widths, a, k) && SettledAt(defs', widths, b, i');
  }

  lemma SameDefinitions(defs: Updates, defs': Updates)
    requires multiset(defs) == multiset(defs')
    ensures forall i | 0 <= i < |defs| :: defs[i] in defs'
    ensures Targets(defs) <= Targets(defs')
  {
    forall i | 0 <= i < |defs|
      ensures defs[i] in defs'
    {
      assert defs[i] in multiset(defs');
    }
    forall x | x in Targets(defs)
      ensures x in Targets(defs')
    {
      var i :| 0 <= i < |defs| && defs[i].0 == x;
      var j :| 0 <= j < |defs'| && defs'[j] == defs[i];
    }
  }

  ghost predicate NoCells(s: Env, xs: set<Name>) {
    forall y | y in xs :: CellsOf(s, y) == []
  }

  lemma {:induction false} SweepToNoCells(defs: Updates, widths: map<Name, int>, s: Env, j: nat)
    requires j <= |defs| && NoCells(s, Targets(defs))
    ensures NoCells(SweepTo(defs, widths, s, j), Targets(defs))
    decreases j
  {
    if j > 0 {
      SweepToNoCells(defs, widths, s, j - 1);
    }
  }

  lemma {:induction false} SweepsNoCells(defs: Updates, widths: map<Name, int>, s: Env, n: nat)
    requires NoCells(s, Targets(defs))
    ensures NoCells(Sweeps(defs, widths, s, n), Targets(defs))
  {
    if n > 0 {
      SweepsNoCells(defs, widths, s, n - 1);
      SweepToNoCells(defs, widths, Sweeps(defs, widths, s, n - 1), |defs|);
    }
  }

  /**
    The settled values depend only on the registers, inputs and definitions: neither the order
    of the definitions nor the previous combinational values matter.
    */
  lemma SettleOrderIndependent(cfg: Config, cfg': Config, a: Env, b: Env)
    requires Acyclic(cfg.comb) && Acyclic(cfg'.comb) && cfg.widths == cfg'.widths
    requires multiset(cfg.comb) == multiset(cfg'.comb)
    requires forall y | y !in Targets(cfg.comb) :: SameAt(a, b, y)
    requires NoCells(a, Targets(cfg.comb)) && NoCells(b, Targets(cfg.comb))
    ensures forall y :: SameAt(Settle(cfg, a), Settle(cfg', b), y)
  {
    var defs, defs' := cfg.comb, cfg'.comb;
    SameDefinitions(defs, defs');
    SameDefinitions(defs', defs);
    SettleSettles(cfg, a);
    SettleSettles(cfg', b);
    SweepsNoCells(defs, cfg.widths, a, |defs| + 1);
    SweepsNoCells(defs', cfg.widths, b, |defs'| + 1);
    var rank :| Ranked(defs, rank);
    forall y
      ensures SameAt(Settle(cfg, a), Settle(cfg', b), y)
    {
      if y in Targets(defs) {
        var k :| 0 <= k < |defs| && defs[k].0 == y;
        SettledValuesAgree(defs, defs', cfg.widths, rank, Settle(cfg, a), Settle(cfg', b), k);
      } else {
        assert SameAt(Settle(cfg, a), a, y) && SameAt(Settle(cfg', b), b, y);
      }
    }
  }
}
