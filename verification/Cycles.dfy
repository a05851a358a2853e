/**
  What a simulator run does, vector by vector, said of the stimulus alone: what an edge sees, which
  level of the reset port resets, and what registers, widths and rows come out.
  */
module Cycles {
  import opened Expressions
  import opened Simulator

  // ---------------------------------------------------------------------------
  // Widths
  // ---------------------------------------------------------------------------

  /** `r` is what is left of `v` below `m`. */
  ghost predicate LowPart(v: nat, m: nat, r: nat) {
    r < m && exists q: nat :: Above(v, m, q, r)
  }

  predicate Above(v: nat, m: nat, q: nat, r: nat) {
    v == q * m + r
  }

  /** A register of `w` bits keeps the low `w` bits; one without a declared width keeps everything. */
  lemma MaskLaw(v: nat, w: int)
    ensures w > 0 ==> Mask(V(v), Some(w)).V? && LowPart(v, Pow2(w), Mask(V(v), Some(w)).n)
    ensures w <= 0 ==> Mask(V(v), Some(w)) == V(v)
    ensures Mask(V(v), None) == V(v) && Mask(X, Some(w)) == X && Mask(X, None) == X
    ensures Pow2(0) == 1 && (w >= 0 ==> Pow2(w + 1) == Pow2(w) + Pow2(w))
  {
    if w > 0 {
      assert Above(v, Pow2(w), v / Pow2(w), v % Pow2(w));
    }
  }

  // ---------------------------------------------------------------------------
  // What an edge sees
  // ---------------------------------------------------------------------------

  /** A vector drives the names it lists, but for the clock and the reset port. */
  predicate Drives(cfg: Config, inputs: Vector, x: Name) {
    x in inputs && x != "clk" && x != cfg.resetPort
  }

  /**
    `seen` is the state `s` with the vector driven: combinational outputs show their definitions, driven
    names their values, and everything else what it held.
    */
  ghost predicate Sees(cfg: Config, s: Env, inputs: Vector, seen: Env) {
    && (forall k | 0 <= k < |cfg.comb| ::
          Lookup(seen, cfg.comb[k].0) == Mask(Eval(cfg.comb[k].1, seen), WidthOf(cfg.widths, cfg.comb[k].0)))
    && forall x | x !in Targets(cfg.comb) ::
         && Lookup(seen, x) == (if Drives(cfg, inputs, x) then inputs[x] else Lookup(s, x))
         && CellsOf(seen, x) == (if Drives(cfg, inputs, x) then [] else CellsOf(s, x))
  }

  lemma EdgeSees(cfg: Config, s: Env, inputs: Vector)
    requires Acyclic(cfg.comb)
    ensures Sees(cfg, s, inputs, Seen(cfg, s, inputs))
  {
    var driven := SetInputs(cfg, s, inputs);
    SettleSettles(cfg, driven);
    var seen := Seen(cfg, s, inputs);
    forall k | 0 <= k < |cfg.comb|
      ensures Lookup(seen, cfg.comb[k].0) == Mask(Eval(cfg.comb[k].1, seen), WidthOf(cfg.widths, cfg.comb[k].0))
    {
      assert SettledAt(cfg.comb, cfg.widths, seen, k);
    }
    forall x | x !in Targets(cfg.comb)
      ensures Lookup(seen, x) == (if Drives(cfg, inputs, x) then inputs[x] else Lookup(s, x))
      ensures CellsOf(seen, x) == (if Drives(cfg, inputs, x) then [] else CellsOf(s, x))
    {
      assert SameAt(seen, driven, x);
      assert Drives(cfg, inputs, x) <==> x in Driven(cfg, inputs);
    }
  }

  // ---------------------------------------------------------------------------
  // What an edge leaves
  // ---------------------------------------------------------------------------

  /** The `k`-th update is the last one of register `x`. */
  ghost predicate LastOf(us: seq<(Lhs, Expr)>, x: Name, k: nat) {
    k < |us| && us[k].0 == Reg(x) && forall j | k < j < |us| :: us[j].0 != Reg(x)
  }

  ghost predicate NoneOf(us: seq<(Lhs, Expr)>, x: Name) {
    forall k | 0 <= k < |us| :: us[k].0 != Reg(x)
  }

  lemma LastOfRest(us: seq<(Lhs, Expr)>, x: Name, k: nat)
    requires us != []
    ensures k > 0 ==> (LastOf(us, x, k) <==> LastOf(us[1..], x, k - 1))
    ensures LastOf(us, x, 0) <==> us[0].0 == Reg(x) && NoneOf(us[1..], x)
    ensures NoneOf(us, x) <==> us[0].0 != Reg(x) && NoneOf(us[1..], x)
  {
    assert forall j | 0 < j < |us| :: us[1..][j - 1] == us[j];
    assert forall j | 0 <= j < |us| - 1 :: us[1..][j] == us[j + 1];
  }

  lemma {:induction false} RegistersLand(widths: map<Name, int>, base: Env, pre: Env, us: seq<(Lhs, Expr)>, x: Name)
    ensures forall k: nat | LastOf(us, x, k) ::
      Lookup(LandRegs(widths, base, pre, us), x) == Mask(Eval(us[k].1, pre), WidthOf(widths, x))
    ensures NoneOf(us, x) ==> Lookup(LandRegs(widths, base, pre, us), x) == Lookup(base, x)
    decreases us
  {
    if us != [] {
      var next := match us[0].0
        case Reg(y) => base[y := Scalar(NewValue(widths, pre, y, us[0].1))]
        case Elem(_, _) => base;
      RegistersLand(widths, next, pre, us[1..], x);
      forall k: nat | LastOf(us, x, k)
        ensures Lookup(LandRegs(widths, base, pre, us), x) == Mask(Eval(us[k].1, pre), WidthOf(widths, x))
      {
        LastOfRest(us, x, k);
      }
      LastOfRest(us, x, 0);
    }
  }

  /** Memory writes leave every scalar alone. */
  lemma {:induction false} CellsKeepScalars(widths: map<Name, int>, s: Env, pre: Env, us: seq<(Lhs, Expr)>, x: Name)
    ensures Lookup(LandCells(widths, s, pre, us), x) == Lookup(s, x)
    decreases us
  {
    if us != [] {
      var next := match us[0].0
        case Reg(_) => s
        case Elem(b, i) => WriteCell(s, b, Eval(i, pre), NewValue(widths, pre, b, us[0].1));
      CellsKeepScalars(widths, next, pre, us[1..], x);
    }
  }

  /** The `k`-th assignment is the last one that names `x`, indexed or not. */
  predicate LastNaming(us: seq<(Lhs, Expr)>, x: Name, k: nat) {
    k < |us| && us[k].0.Base() == x && forall j | k < j < |us| :: us[j].0.Base() != x
  }

  predicate NoneNaming(us: seq<(Lhs, Expr)>, x: Name) {
    forall k | 0 <= k < |us| :: us[k].0.Base() != x
  }

  ghost predicate LastReset(cfg: Config, x: Name, k: nat) {
    LastNaming(cfg.reset, x, k)
  }

  ghost predicate NoReset(cfg: Config, x: Name) {
    x !in cfg.regVars || NoneNaming(cfg.reset, x)
  }

  lemma LastNamingRest(us: seq<(Lhs, Expr)>, x: Name, k: nat)
    requires us != []
    ensures k > 0 ==> (LastNaming(us, x, k) <==> LastNaming(us[1..], x, k - 1))
    ensures LastNaming(us, x, 0) <==> us[0].0.Base() == x && NoneNaming(us[1..], x)
    ensures NoneNaming(us, x) <==> us[0].0.Base() != x && NoneNaming(us[1..], x)
  {
    assert forall j | 0 < j < |us| :: us[1..][j - 1] == us[j];
    assert forall j | 0 <= j < |us| - 1 :: us[1..][j] == us[j + 1];
  }

  /** The state with the first reset assignment landed, if it names a register. */
  function FirstLanded(cfg: Config, base: Env, pre: Env, u: (Lhs, Expr)): Env {
    var b := u.0.Base();
    if b in cfg.regVars then base[b := Scalar(Mask(Eval(u.1, pre), WidthOf(cfg.widths, b)))] else base
  }

  lemma ResetStep(cfg: Config, base: Env, pre: Env, us: seq<(Lhs, Expr)>)
    requires us != []
    ensures LandRegs(cfg.widths, base, pre, ResetTargets(cfg, us)) ==
      LandRegs(cfg.widths, FirstLanded(cfg, base, pre, us[0]), pre, ResetTargets(cfg, us[1..]))
  {
    var b, rest := us[0].0.Base(), ResetTargets(cfg, us[1..]);
    assert [] + rest == rest;
    if b in cfg.regVars {
      var first := [(Reg(b), us[0].1)];
      assert (first + rest)[1..] == rest;
    }
  }

  lemma {:induction false} ResetsLand(cfg: Config, base: Env, pre: Env, us: seq<(Lhs, Expr)>, x: Name)
    ensures x in cfg.regVars ==> forall k: nat | LastNaming(us, x, k) ::
      Lookup(LandRegs(cfg.widths, base, pre, ResetTargets(cfg, us)), x) == Mask(Eval(us[k].1, pre), WidthOf(cfg.widths, x))
    ensures x !in cfg.regVars || NoneNaming(us, x) ==>
      Lookup(LandRegs(cfg.widths, base, pre, ResetTargets(cfg, us)), x) == Lookup(base, x)
    decreases us
  {
    if us != [] {
      ResetStep(cfg, base, pre, us);
      ResetsLand(cfg, FirstLanded(cfg, base, pre, us[0]), pre, us[1..], x);
      forall k: nat
        ensures k > 0 ==> (LastNaming(us, x, k) <==> LastNaming(us[1..], x, k - 1))
      {
        LastNamingRest(us, x, k);
      }
      LastNamingRest(us, x, 0);
    }
  }

  /** What a reset edge leaves: masked reset values in the registers that have one, the rest as seen. */
  ghost predicate ResetLands(cfg: Config, seen: Env, after: Env) {
    forall x | x !in Targets(cfg.comb) ::
      && (forall k: nat | x in cfg.regVars && LastReset(cfg, x, k) ::
            Lookup(after, x) == Mask(Eval(cfg.reset[k].1, seen), WidthOf(cfg.widths, x)))
      && (NoReset(cfg, x) ==> Lookup(after, x) == Lookup(seen, x))
  }

  /** What any other edge leaves: masked next values, all read in what the edge saw. */
  ghost predicate NextLands(cfg: Config, seen: Env, after: Env) {
    forall x | x !in Targets(cfg.comb) ::
      && (forall k: nat | LastOf(cfg.clocked, x, k) ::
            Lookup(after, x) == Mask(Eval(cfg.clocked[k].1, seen), WidthOf(cfg.widths, x)))
      && (NoneOf(cfg.clocked, x) ==> Lookup(after, x) == Lookup(seen, x))
  }

  lemma ResetEdgeLands(cfg: Config, s: Env, inputs: Vector)
    requires Acyclic(cfg.comb)
    ensures ResetLands(cfg, Seen(cfg, s, inputs), Edge(cfg, s, inputs, true))
  {
    var seen := Seen(cfg, s, inputs);
    SettleSettles(cfg, ResetEdge(cfg, seen));
    forall x | x !in Targets(cfg.comb)
      ensures forall k: nat | x in cfg.regVars && LastReset(cfg, x, k) ::
        Lookup(Edge(cfg, s, inputs, true), x) == Mask(Eval(cfg.reset[k].1, seen), WidthOf(cfg.widths, x))
      ensures NoReset(cfg, x) ==> Lookup(Edge(cfg, s, inputs, true), x) == Lookup(seen, x)
    {
      ResetsLand(cfg, seen, seen, cfg.reset, x);
      assert SameAt(Edge(cfg, s, inputs, true), ResetEdge(cfg, seen), x);
    }
  }

  lemma ClockedEdgeLands(cfg: Config, s: Env, inputs: Vector)
    requires Acyclic(cfg.comb)
    ensures NextLands(cfg, Seen(cfg, s, inputs), Edge(cfg, s, inputs, false))
  {
    var seen := Seen(cfg, s, inputs);
    SettleSettles(cfg, ClockedEdge(cfg, seen));
    forall x | x !in Targets(cfg.comb)
      ensures forall k: nat | LastOf(cfg.clocked, x, k) ::
        Lookup(Edge(cfg, s, inputs, false), x) == Mask(Eval(cfg.clocked[k].1, seen), WidthOf(cfg.widths, x))
      ensures NoneOf(cfg.clocked, x) ==> Lookup(Edge(cfg, s, inputs, false), x) == Lookup(seen, x)
    {
      RegistersLand(cfg.widths, seen, seen, cfg.clocked, x);
      CellsKeepScalars(cfg.widths, LandRegs(cfg.widths, seen, seen, cfg.clocked), seen, cfg.clocked, x);
      assert SameAt(Edge(cfg, s, inputs, false), ClockedEdge(cfg, seen), x);
    }
  }

  // ---------------------------------------------------------------------------
  // Runs
  // ---------------------------------------------------------------------------

  /** The vector says nothing of the port, or leaves it undefined. */
  predicate Silent(inputs: Vector, port: Name) {
    port !in inputs || inputs[port] == X
  }

  /**
    The reset level: on an active-high design a vector resets when it drives the port to a value other
    than 0, on an active-low design when it drives it to 0. Every other vector makes a normal step.
    */
  lemma ResetLevel(cfg: Config, s0: Env, stimulus: seq<Vector>, tr: Trace, i: nat)
    requires IsRun(cfg, s0, stimulus, tr) && i < |stimulus| && Acyclic(cfg.comb)
    ensures Sees(cfg, tr.states[i], stimulus[i], tr.seen[i])
    ensures Silent(stimulus[i], cfg.resetPort) ==> NextLands(cfg, tr.seen[i], tr.states[i + 1])
    ensures !Silent(stimulus[i], cfg.resetPort) && stimulus[i][cfg.resetPort] == V(0) ==>
      if cfg.activeLow then ResetLands(cfg, tr.seen[i], tr.states[i + 1]) else NextLands(cfg, tr.seen[i], tr.states[i + 1])
    ensures !Silent(stimulus[i], cfg.resetPort) && stimulus[i][cfg.resetPort].n > 0 ==>
      if cfg.activeLow then NextLands(cfg, tr.seen[i], tr.states[i + 1]) else ResetLands(cfg, tr.seen[i], tr.states[i + 1])
  {
    assert StepsTo(cfg, tr, stimulus[i], i);
    EdgeSees(cfg, tr.states[i], stimulus[i]);
    ResetEdgeLands(cfg, tr.states[i], stimulus[i]);
    ClockedEdgeLands(cfg, tr.states[i], stimulus[i]);
  }

  /** Some vector drives `x`. */
  ghost predicate Mentioned(cfg: Config, stimulus: seq<Vector>, x: Name) {
    exists i :: 0 <= i < |stimulus| && Drives(cfg, stimulus[i], x)
  }

  /**
    Before the first vector a run resets and then takes one normal step, with every input the stimulus
    will drive held at 0.
    */
  lemma {:induction false} PulseFirst(cfg: Config, s0: Env, stimulus: seq<Vector>, tr: Trace)
    returns (zeros: Vector, before: Env, mid: Env, seen: Env)
    requires IsRun(cfg, s0, stimulus, tr) && Acyclic(cfg.comb)
    ensures forall x :: (x in zeros <==> Mentioned(cfg, stimulus, x)) && (x in zeros ==> zeros[x] == V(0))
    ensures Sees(cfg, s0, zeros, before) && ResetLands(cfg, before, mid)
    ensures Sees(cfg, mid, zeros, seen) && NextLands(cfg, seen, tr.states[0])
  {
    zeros := Zeros(cfg, stimulus);
    before, mid := Seen(cfg, s0, zeros), Edge(cfg, s0, zeros, true);
    seen := Seen(cfg, mid, zeros);
    ZerosHold(cfg, stimulus);
    EdgeSees(cfg, s0, zeros);
    ResetEdgeLands(cfg, s0, zeros);
    EdgeSees(cfg, mid, zeros);
    ClockedEdgeLands(cfg, mid, zeros);
  }

  lemma ZerosHold(cfg: Config, stimulus: seq<Vector>)
    ensures forall x :: (x in Zeros(cfg, stimulus) <==> Mentioned(cfg, stimulus, x))
    ensures forall x | x in Zeros(cfg, stimulus) :: Zeros(cfg, stimulus)[x] == V(0)
  {
    forall x
      ensures x in Zeros(cfg, stimulus) <==> Mentioned(cfg, stimulus, x)
    {
      if x in Zeros(cfg, stimulus) {
        var i, k :| 0 <= i < |stimulus| && k in stimulus[i] && k == x;
        assert Drives(cfg, stimulus[i], x);
      }
    }
  }

  /** A row shows exactly the requested ports that are defined. */
  lemma RowShows(s: Env, ports: seq<Name>, p: Name)
    ensures p in Observe(s, ports) <==> p in ports && Lookup(s, p).V?
    ensures p in Observe(s, ports) ==> Lookup(s, p) == V(Observe(s, ports)[p])
  {
  }
}
