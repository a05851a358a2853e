/**
  The handshake seen from outside: what a stimulus must show for a start to be served, and what the
  rows of the run then show, without a word about the inside of a run.
  */
module Served {
  import opened Expressions
  import opened Domain
  import opened Kernel
  import opened Simulator
  import opened Handshake
  import opened Runs

  /** The vector leaves the reset port alone, undefined, or at the level that does not reset. */
  predicate ResetInactive(cfg: Config, inputs: Vector) {
    cfg.resetPort in inputs && inputs[cfg.resetPort].V? ==>
      if cfg.activeLow then inputs[cfg.resetPort].n > 0 else inputs[cfg.resetPort].n == 0
  }

  /** The vector drives start to 1 and every operand to its value. */
  predicate Starts(m: Machine, d: Derivation, inputs: Vector, v: Row)
    requires |v| == |d.inputs|
  {
    && m.start in inputs && inputs[m.start] == V(1)
    && forall k | 0 <= k < |v| :: d.inputs[k].0 in inputs && inputs[d.inputs[k].0] == V(v[k])
  }

  lemma SeesOperand(m: Machine, d: Derivation, cfg: Config, s: Env, inputs: Vector, x: Name)
    requires DistinctNames(m, d) && Circuit(m, d, cfg) && x in InputNamesOf(d) + {m.start} && x in inputs
    ensures Lookup(Seen(cfg, s, inputs), x) == inputs[x]
  {
    var s1 := SetInputs(cfg, s, inputs);
    DoneSettles(m, d, cfg, s1);
    assert SameAt(Seen(cfg, s, inputs), s1, x) && x in Driven(cfg, inputs);
  }

  /** Such a vector is an accepted start when the control register does not show BUSY. */
  lemma StartAccepted(m: Machine, d: Derivation, cfg: Config, s0: Env, stimulus: seq<Vector>, tr: Trace, t: nat, v: Row)
    requires DistinctNames(m, d) && Circuit(m, d, cfg) && IsRun(cfg, s0, stimulus, tr) && t < |stimulus|
    requires |v| == |d.inputs| && Starts(m, d, stimulus[t], v) && ResetInactive(cfg, stimulus[t])
    requires Lookup(tr.states[t], m.state) != V(1)
    ensures Accepted(m, tr, t + 1) && OperandsAt(d, tr, t + 1) == v
  {
    assert StepsTo(cfg, tr, stimulus[t], t);
    SeesOperand(m, d, cfg, tr.states[t], stimulus[t], m.start);
    forall k | 0 <= k < |v|
      ensures OperandsAt(d, tr, t + 1)[k] == v[k]
    {
      assert d.inputs[k].0 in InputNamesOf(d);
      SeesOperand(m, d, cfg, tr.states[t], stimulus[t], d.inputs[k].0);
    }
  }

  lemma LeftAlone(cfg: Config, s0: Env, stimulus: seq<Vector>, tr: Trace, t: nat, i: nat)
    requires IsRun(cfg, s0, stimulus, tr) && 0 < t <= i <= |stimulus|
    requires forall j | t <= j < i :: ResetInactive(cfg, stimulus[j])
    ensures Undisturbed(tr, t, i)
  {
    forall j | t <= j < i
      ensures !tr.resets[j]
    {
      assert StepsTo(cfg, tr, stimulus[j], j);
    }
  }

  /** The `j`-th state of a repetition of `k` steps: the loop state in the registers, BUSY or DONE. */
  ghost predicate ServesAt(m: Machine, d: Derivation, s: Env, v: Row, j: nat, k: nat)
    requires |v| == |d.inputs|
  {
    && (forall x | x in RegNames(m) :: Lookup(s, x) == Lookup(LoopState(d, v, j), x))
    && Lookup(s, m.state) == (if j < k then V(1) else V(2))
    && Lookup(s, m.done) == (if j < k then V(0) else V(1))
  }

  /** After a start the control register shows BUSY for `k` vectors and DONE after them. */
  ghost predicate Serves(m: Machine, d: Derivation, states: seq<Env>, t: nat, v: Row, k: nat)
    requires |v| == |d.inputs| && t + k + 1 < |states|
  {
    forall i | t < i <= t + k + 1 :: ServesAt(m, d, states[i], v, i - t - 1, k)
  }

  lemma ServedStep(m: Machine, d: Derivation, widths: map<Name, int>, tr: Trace, idle: Env, t: nat, v: Row, j: nat, k: nat)
    requires Follows(m, d, widths, tr, idle) && t + k + 1 < |tr.states| && |v| == |d.inputs| && j <= k
    requires Accepted(m, tr, t + 1) && Undisturbed(tr, t + 1, t + 1 + k)
    requires OperandsAt(d, tr, t + 1) == v && ExitsAfter(d, v, k)
    ensures ServesAt(m, d, tr.states[t + 1 + j], v, j, k)
  {
    FollowsCoded(m, d, widths, tr, idle);
    BusySince(m, d, tr, idle, t + 1, j, k);
    ServedAt(m, d, widths, tr.states[t + 1 + j], v, j, k);
  }

  lemma ServedIn(m: Machine, d: Derivation, widths: map<Name, int>, tr: Trace, idle: Env, t: nat, v: Row, i: nat, k: nat)
    requires Follows(m, d, widths, tr, idle) && t + k + 1 < |tr.states| && |v| == |d.inputs| && t < i <= t + k + 1
    requires Accepted(m, tr, t + 1) && Undisturbed(tr, t + 1, t + 1 + k)
    requires OperandsAt(d, tr, t + 1) == v && ExitsAfter(d, v, k)
    ensures ServesAt(m, d, tr.states[i], v, i - t - 1, k)
  {
    var j := i - t - 1;
    ServedStep(m, d, widths, tr, idle, t, v, j, k);
    assert t + 1 + j == i;
  }

  lemma ServedFrom(m: Machine, d: Derivation, widths: map<Name, int>, tr: Trace, idle: Env, t: nat, v: Row, k: nat)
    requires Follows(m, d, widths, tr, idle) && t + k + 1 < |tr.states| && |v| == |d.inputs|
    requires Accepted(m, tr, t + 1) && Undisturbed(tr, t + 1, t + 1 + k)
    requires OperandsAt(d, tr, t + 1) == v && ExitsAfter(d, v, k)
    ensures Serves(m, d, tr.states, t, v, k)
  {
    forall i | t < i <= t + k + 1
      ensures ServesAt(m, d, tr.states[i], v, i - t - 1, k)
    {
      ServedIn(m, d, widths, tr, idle, t, v, i, k);
    }
  }

  /**
    A vector that drives start to 1, at a circuit that is not BUSY, starts the loop on the operands it
    drives: as long as no vector resets, the registers step through the loop states, and done is high
    exactly after the last of them.
    */
  lemma StimulusServed(m: Machine, d: Derivation, cfg: Config, s0: Env, stimulus: seq<Vector>, tr: Trace, t: nat, v: Row, k: nat)
    requires Sound(m, d, cfg) && GoodStimulus(m, d, cfg, stimulus) && IsRun(cfg, s0, stimulus, tr)
    requires t + k < |stimulus| && |v| == |d.inputs| && ExitsAfter(d, v, k)
    requires Starts(m, d, stimulus[t], v) && Lookup(tr.states[t], m.state) != V(1)
    requires forall i | t <= i <= t + k :: ResetInactive(cfg, stimulus[i])
    ensures Serves(m, d, tr.states, t, v, k)
  {
    StartAccepted(m, d, cfg, s0, stimulus, tr, t, v);
    LeftAlone(cfg, s0, stimulus, tr, t + 1, t + 1 + k);
    SimulatorFollows(m, d, cfg, s0, stimulus, tr);
    ServedFrom(m, d, cfg.widths, tr, ResetEnv(cfg), t, v, k);
  }

  /** Before the first vector the control register shows IDLE. */
  lemma FirstIsIdle(m: Machine, d: Derivation, cfg: Config, s0: Env, stimulus: seq<Vector>, tr: Trace)
    requires Sound(m, d, cfg) && GoodStimulus(m, d, cfg, stimulus) && IsRun(cfg, s0, stimulus, tr)
    ensures Lookup(tr.states[0], m.state) == V(0) && Lookup(tr.states[0], m.done) == V(0)
  {
    FirstState(m, d, cfg, s0, stimulus, tr.states[0]);
  }
}
