/**
  Whole runs of the scheduled circuit, and the end-to-end theorem: what the kernel proved about
  the loop is what the hardware delivers whenever done is high.
  */
module Runs {
  import opened Expressions
  import opened Domain
  import opened Kernel
  import opened Simulator
  import opened Handshake

  /** The phase of the abstract machine after `i` vectors. */
  ghost function PhaseAt(m: Machine, d: Derivation, tr: Trace, idle: Env, i: nat): (p: Phase)
    requires tr.Shaped() && i <= tr.Length()
    ensures p.Busy? || p.Done? ==> |p.v| == |d.inputs|
  {
    if i == 0 || tr.resets[i - 1] then Idle(idle)
    else Next(d, PhaseAt(m, d, tr, idle, i - 1), Started(m, tr.seen[i - 1]), OperandsIn(d, tr.seen[i - 1]))
  }

  /** The run shows the phases of the abstract machine, vector by vector. */
  ghost predicate Follows(m: Machine, d: Derivation, widths: map<Name, int>, tr: Trace, idle: Env) {
    && tr.Shaped()
    && (forall i {:trigger Shows(m, d, widths, tr.states[i], PhaseAt(m, d, tr, idle, i))} | 0 <= i <= tr.Length() ::
          Shows(m, d, widths, tr.states[i], PhaseAt(m, d, tr, idle, i)))
    && (forall t {:trigger Ready(m, d, tr.seen[t], PhaseAt(m, d, tr, idle, t))} | 0 <= t < tr.Length() && !tr.resets[t] ::
          Ready(m, d, tr.seen[t], PhaseAt(m, d, tr, idle, t)))
  }

  // ---------------------------------------------------------------------------
  // Accepted starts, in terms of the circuit alone
  // ---------------------------------------------------------------------------

  /** Vector `t` starts a computation: no reset, start high, control not BUSY. */
  predicate Accepted(m: Machine, tr: Trace, t: nat)
    requires tr.Shaped() && 0 < t <= tr.Length()
  {
    !tr.resets[t - 1] && Started(m, tr.seen[t - 1]) && Lookup(tr.states[t - 1], m.state) != V(1)
  }

  /** The operands sampled at vector `t`. */
  function OperandsAt(d: Derivation, tr: Trace, t: nat): (v: Row)
    requires tr.Shaped() && 0 < t <= tr.Length()
    ensures |v| == |d.inputs|
  {
    OperandsIn(d, tr.seen[t - 1])
  }

  ghost predicate Undisturbed(tr: Trace, t: nat, i: nat)
    requires tr.Shaped() && 0 < t <= i <= tr.Length()
  {
    forall j | t <= j < i :: !tr.resets[j]
  }

  ghost predicate RegsHold(m: Machine, s: Env, content: Env) {
    forall x | x in RegNames(m) :: Lookup(s, x) == Lookup(content, x)
  }

  function Steps(p: Phase): nat {
    match p case Idle(_) => 0 case Busy(_, j) => j case Done(_, k) => k
  }

  /** The control register shows the code of the phase all along. */
  ghost predicate Coded(m: Machine, d: Derivation, tr: Trace, idle: Env) {
    && tr.Shaped()
    && forall i {:trigger tr.states[i]} | 0 <= i <= tr.Length() :: Lookup(tr.states[i], m.state) == V(Code(PhaseAt(m, d, tr, idle, i)))
  }

  lemma FollowsCoded(m: Machine, d: Derivation, widths: map<Name, int>, tr: Trace, idle: Env)
    requires Follows(m, d, widths, tr, idle)
    ensures Coded(m, d, tr, idle)
  {
    forall i | 0 <= i <= tr.Length()
      ensures Lookup(tr.states[i], m.state) == V(Code(PhaseAt(m, d, tr, idle, i)))
    {
      assert Shows(m, d, widths, tr.states[i], PhaseAt(m, d, tr, idle, i));
    }
  }

  /** A phase in use began with a start accepted as many vectors ago as steps were made. */
  ghost predicate Began(m: Machine, d: Derivation, tr: Trace, i: nat, p: Phase)
    requires tr.Shaped() && i <= tr.Length()
  {
    p.Busy? || p.Done? ==>
      && Steps(p) < i
      && Accepted(m, tr, i - Steps(p))
      && OperandsAt(d, tr, i - Steps(p)) == p.v
      && Undisturbed(tr, i - Steps(p), i)
  }

  lemma BeganNext(m: Machine, d: Derivation, tr: Trace, i: nat, p: Phase)
    requires tr.Shaped() && 0 < i <= tr.Length() && !tr.resets[i - 1] && (p.Busy? || p.Done? ==> |p.v| == |d.inputs|)
    requires Began(m, d, tr, i - 1, p) && Lookup(tr.states[i - 1], m.state) == V(Code(p))
    ensures Began(m, d, tr, i, Next(d, p, Started(m, tr.seen[i - 1]), OperandsIn(d, tr.seen[i - 1])))
  {
  }

  lemma {:induction false} PhaseHistory(m: Machine, d: Derivation, tr: Trace, idle: Env, i: nat)
    requires Coded(m, d, tr, idle) && i <= tr.Length()
    ensures Began(m, d, tr, i, PhaseAt(m, d, tr, idle, i))
  {
    if i > 0 && !tr.resets[i - 1] {
      PhaseHistory(m, d, tr, idle, i - 1);
      BeganNext(m, d, tr, i, PhaseAt(m, d, tr, idle, i - 1));
    }
  }

  /** Vector `t` accepted a start, nothing disturbed it, and `i` shows where its repetition ended. */
  ghost predicate Finished(m: Machine, d: Derivation, tr: Trace, t: nat, i: nat)
    requires tr.Shaped() && i <= tr.Length()
  {
    && 0 < t < i && Accepted(m, tr, t) && Undisturbed(tr, t, i)
    && var v := OperandsAt(d, tr, t);
      && InBox(v, d.Sizes()) && ExitsAfter(d, v, i - t)
      && RegsHold(m, tr.states[i], LoopState(d, v, i - t))
  }

  lemma DoneFinishes(m: Machine, d: Derivation, widths: map<Name, int>, tr: Trace, i: nat, p: Phase)
    requires tr.Shaped() && i <= tr.Length()
    requires Shows(m, d, widths, tr.states[i], p) && Lookup(tr.states[i], m.done) == V(1)
    requires Began(m, d, tr, i, p)
    ensures p.Done? && p.k <= i && Finished(m, d, tr, i - p.k, i)
  {
  }

  /** Safety: done is only ever high because a start was accepted that many cycles ago. */
  lemma DoneIsEarned(m: Machine, d: Derivation, widths: map<Name, int>, tr: Trace, idle: Env, i: nat)
    returns (t: nat)
    requires Follows(m, d, widths, tr, idle) && i <= tr.Length()
    requires Lookup(tr.states[i], m.done) == V(1)
    ensures Finished(m, d, tr, t, i)
  {
    FollowsCoded(m, d, widths, tr, idle);
    PhaseHistory(m, d, tr, idle, i);
    DoneFinishes(m, d, widths, tr, i, PhaseAt(m, d, tr, idle, i));
    t := i - PhaseAt(m, d, tr, idle, i).k;
  }

  lemma {:induction false} BusySince(m: Machine, d: Derivation, tr: Trace, idle: Env, t: nat, j: nat, k: nat)
    requires Coded(m, d, tr, idle)
    requires 0 < t && j <= k && t + k <= tr.Length()
    requires Accepted(m, tr, t) && Undisturbed(tr, t, t + k)
    requires ExitsAfter(d, OperandsAt(d, tr, t), k)
    ensures PhaseAt(m, d, tr, idle, t + j) ==
      if j < k then Busy(OperandsAt(d, tr, t), j) else Done(OperandsAt(d, tr, t), k)
    decreases j
  {
    if j > 0 {
      BusySince(m, d, tr, idle, t, j - 1, k);
      assert !tr.resets[t + j - 1];
    }
  }

  /** A state that shows the phase of a repetition of `k` steps after `j` of them. */
  lemma ServedAt(m: Machine, d: Derivation, widths: map<Name, int>, s: Env, v: Row, j: nat, k: nat)
    requires |v| == |d.inputs| && j <= k && Shows(m, d, widths, s, if j < k then Busy(v, j) else Done(v, k))
    ensures RegsHold(m, s, LoopState(d, v, j))
    ensures Lookup(s, m.state) == (if j < k then V(1) else V(2)) && Lookup(s, m.done) == Truth(j == k)
  {
  }

  lemma ServedOn(m: Machine, d: Derivation, widths: map<Name, int>, tr: Trace, idle: Env, t: nat, j: nat, k: nat)
    requires Follows(m, d, widths, tr, idle) && Coded(m, d, tr, idle)
    requires 0 < t && j <= k && t + k <= tr.Length()
    requires Accepted(m, tr, t) && Undisturbed(tr, t, t + k)
    requires ExitsAfter(d, OperandsAt(d, tr, t), k)
    ensures RegsHold(m, tr.states[t + j], LoopState(d, OperandsAt(d, tr, t), j))
    ensures Lookup(tr.states[t + j], m.state) == (if j < k then V(1) else V(2))
    ensures Lookup(tr.states[t + j], m.done) == Truth(j == k)
  {
    BusySince(m, d, tr, idle, t, j, k);
    assert Shows(m, d, widths, tr.states[t + j], PhaseAt(m, d, tr, idle, t + j));
    ServedAt(m, d, widths, tr.states[t + j], OperandsAt(d, tr, t), j, k);
  }

  /**
    Liveness: an undisturbed accepted start keeps the circuit busy for exactly as many cycles as
    it repeats the body, stepping the registers through the loop states, and then raises done.
    Every start is heard this way in IDLE and in DONE, back to back.
    */
  lemma StartIsServed(m: Machine, d: Derivation, widths: map<Name, int>, tr: Trace, idle: Env, t: nat, k: nat)
    requires Follows(m, d, widths, tr, idle)
    requires 0 < t && t + k <= tr.Length()
    requires Accepted(m, tr, t) && Undisturbed(tr, t, t + k)
    requires ExitsAfter(d, OperandsAt(d, tr, t), k)
    ensures forall j | 0 <= j <= k ::
      var s := tr.states[t + j];
      && RegsHold(m, s, LoopState(d, OperandsAt(d, tr, t), j))
      && Lookup(s, m.state) == (if j < k then V(1) else V(2))
      && Lookup(s, m.done) == Truth(j == k)
  {
    var v := OperandsAt(d, tr, t);
    FollowsCoded(m, d, widths, tr, idle);
    forall j | 0 <= j <= k
      ensures var s := tr.states[t + j];
        && RegsHold(m, s, LoopState(d, v, j))
        && Lookup(s, m.state) == (if j < k then V(1) else V(2))
        && Lookup(s, m.done) == Truth(j == k)
    {
      ServedOn(m, d, widths, tr, idle, t, j, k);
    }
  }

  /** Without a reset or an accepted start, a circuit that is not busy keeps its loop registers. */
  lemma OtherwiseHolds(m: Machine, d: Derivation, widths: map<Name, int>, tr: Trace, idle: Env, i: nat)
    requires Follows(m, d, widths, tr, idle) && 0 < i <= tr.Length()
    requires !tr.resets[i - 1] && !Accepted(m, tr, i) && Lookup(tr.states[i - 1], m.state) != V(1)
    ensures RegsHold(m, tr.states[i], tr.states[i - 1])
    ensures Lookup(tr.states[i], m.state) == V(0)
  {
    assert Shows(m, d, widths, tr.states[i - 1], PhaseAt(m, d, tr, idle, i - 1));
    assert Shows(m, d, widths, tr.states[i], PhaseAt(m, d, tr, idle, i));
  }

  /** While BUSY, start is ignored: the next state is the same whatever the inputs show. */
  lemma BusyIgnoresInputs(m: Machine, d: Derivation, widths: map<Name, int>,
                          a: Trace, b: Trace, idle: Env, i: nat, j: nat)
    requires Follows(m, d, widths, a, idle) && Follows(m, d, widths, b, idle)
    requires 0 < i <= a.Length() && 0 < j <= b.Length() && !a.resets[i - 1] && !b.resets[j - 1]
    requires PhaseAt(m, d, a, idle, i - 1) == PhaseAt(m, d, b, idle, j - 1)
    requires Lookup(a.states[i - 1], m.state) == V(1)
    ensures RegsHold(m, a.states[i], b.states[j])
    ensures Lookup(a.states[i], m.state) == Lookup(b.states[j], m.state)
  {
    assert Shows(m, d, widths, a.states[i - 1], PhaseAt(m, d, a, idle, i - 1));
    assert Shows(m, d, widths, a.states[i], PhaseAt(m, d, a, idle, i));
    assert Shows(m, d, widths, b.states[j], PhaseAt(m, d, b, idle, j));
  }

  /** The control register never leaves its three codes and done decodes it. */
  lemma ControlIsOneOfThree(m: Machine, d: Derivation, widths: map<Name, int>, tr: Trace, idle: Env, i: nat)
    requires Follows(m, d, widths, tr, idle) && i <= tr.Length()
    ensures Lookup(tr.states[i], m.state) in {V(0), V(1), V(2)}
    ensures Lookup(tr.states[i], m.done) == Truth(Lookup(tr.states[i], m.state) == V(2))
  {
    assert Shows(m, d, widths, tr.states[i], PhaseAt(m, d, tr, idle, i));
  }

  // ---------------------------------------------------------------------------
  // The simulator produces such runs
  // ---------------------------------------------------------------------------

  /** Every vector is good, and the stimulus names the start input and every operand. */
  ghost predicate GoodStimulus(m: Machine, d: Derivation, cfg: Config, stimulus: seq<Vector>) {
    && (forall i | 0 <= i < |stimulus| :: GoodVector(m, d, stimulus[i]))
    && InputNamesOf(d) + {m.start} <= InputNames(cfg, stimulus)
  }

  lemma ZerosGood(m: Machine, d: Derivation, cfg: Config, stimulus: seq<Vector>)
    requires GoodStimulus(m, d, cfg, stimulus)
    ensures GoodVector(m, d, Zeros(cfg, stimulus))
  {
    var zeros := Zeros(cfg, stimulus);
    forall x | x in zeros
      ensures x !in RegNames(m) + {m.state, m.done}
    {
      var i, k :| 0 <= i < |stimulus| && k in stimulus[i] && k == x;
      assert GoodVector(m, d, stimulus[i]);
    }
  }

  lemma ZerosReady(m: Machine, d: Derivation, cfg: Config, s: Env, stimulus: seq<Vector>)
    requires GoodStimulus(m, d, cfg, stimulus) && Circuit(m, d, cfg)
    ensures OperandsReady(m, d, SetInputs(cfg, s, Zeros(cfg, stimulus)))
    ensures Lookup(SetInputs(cfg, s, Zeros(cfg, stimulus)), m.start) == V(0)
  {
    var zeros := Zeros(cfg, stimulus);
    forall x | x in InputNamesOf(d) + {m.start}
      ensures Lookup(SetInputs(cfg, s, zeros), x) == V(0)
    {
      assert x in Driven(cfg, zeros);
    }
    forall k | 0 <= k < |d.inputs|
      ensures Lookup(SetInputs(cfg, s, zeros), d.inputs[k].0) == V(0)
    {
      assert d.inputs[k].0 in InputNamesOf(d);
    }
  }

  /** The reset pulse leaves the machine idle. */
  lemma PulseIdles(m: Machine, d: Derivation, cfg: Config, s0: Env, zeros: Vector)
    requires Sound(m, d, cfg) && GoodVector(m, d, zeros)
    requires forall s :: OperandsReady(m, d, SetInputs(cfg, s, zeros))
    requires forall s :: Lookup(SetInputs(cfg, s, zeros), m.start) == V(0)
    ensures var s := Edge(cfg, Edge(cfg, s0, zeros, true), zeros, false);
      Shows(m, d, cfg.widths, s, Idle(ResetEnv(cfg))) && OperandsReady(m, d, s)
  {
    var a := Edge(cfg, s0, zeros, true);
    ResetIdles(m, d, cfg, s0, zeros);
    EdgeSteps(m, d, cfg, a, zeros, Idle(ResetEnv(cfg)));
    var s1 := SetInputs(cfg, a, zeros);
    DoneSettles(m, d, cfg, s1);
    assert SameAt(Seen(cfg, a, zeros), s1, m.start);
  }

  lemma NextShows(m: Machine, d: Derivation, cfg: Config, s: Env, inputs: Vector, reset: bool, p: Phase)
    requires Sound(m, d, cfg) && Shows(m, d, cfg.widths, s, p)
    requires OperandsReady(m, d, s) && GoodVector(m, d, inputs)
    ensures var s2 := Seen(cfg, s, inputs);
      && Ready(m, d, s2, p)
      && Shows(m, d, cfg.widths, Edge(cfg, s, inputs, reset),
               if reset then Idle(ResetEnv(cfg)) else Next(d, p, Started(m, s2), OperandsIn(d, s2)))
      && OperandsReady(m, d, Edge(cfg, s, inputs, reset))
  {
    EdgeSteps(m, d, cfg, s, inputs, p);
    if reset {
      InputsReady(m, d, cfg, s, inputs);
      ResetIdles(m, d, cfg, s, inputs);
    }
  }

  lemma FirstState(m: Machine, d: Derivation, cfg: Config, s0: Env, stimulus: seq<Vector>, s: Env)
    requires Sound(m, d, cfg) && GoodStimulus(m, d, cfg, stimulus)
    requires StartsWith(cfg, s0, Zeros(cfg, stimulus), s)
    ensures Shows(m, d, cfg.widths, s, Idle(ResetEnv(cfg))) && OperandsReady(m, d, s)
  {
    var zeros := Zeros(cfg, stimulus);
    forall s
      ensures OperandsReady(m, d, SetInputs(cfg, s, zeros)) && Lookup(SetInputs(cfg, s, zeros), m.start) == V(0)
    {
      ZerosReady(m, d, cfg, s, stimulus);
    }
    ZerosGood(m, d, cfg, stimulus);
    PulseIdles(m, d, cfg, s0, zeros);
  }

  lemma StepShows(m: Machine, d: Derivation, cfg: Config, tr: Trace, inputs: Vector, i: nat, p: Phase)
    requires Sound(m, d, cfg) && GoodVector(m, d, inputs) && tr.Shaped() && i < tr.Length() && StepsTo(cfg, tr, inputs, i)
    requires Shows(m, d, cfg.widths, tr.states[i], p) && OperandsReady(m, d, tr.states[i])
    ensures Shows(m, d, cfg.widths, tr.states[i + 1],
                  if tr.resets[i] then Idle(ResetEnv(cfg)) else Next(d, p, Started(m, tr.seen[i]), OperandsIn(d, tr.seen[i])))
    ensures OperandsReady(m, d, tr.states[i + 1])
  {
    NextShows(m, d, cfg, tr.states[i], inputs, tr.resets[i], p);
  }

  lemma PhaseStep(m: Machine, d: Derivation, tr: Trace, idle: Env, i: nat)
    requires tr.Shaped() && i < tr.Length()
    ensures PhaseAt(m, d, tr, idle, i + 1) ==
      if tr.resets[i] then Idle(idle) else Next(d, PhaseAt(m, d, tr, idle, i), Started(m, tr.seen[i]), OperandsIn(d, tr.seen[i]))
  {
  }

  lemma RunSteps(cfg: Config, s0: Env, stimulus: seq<Vector>, tr: Trace, i: nat)
    requires IsRun(cfg, s0, stimulus, tr) && i < |stimulus|
    ensures tr.Shaped() && tr.Length() == |stimulus| && StepsTo(cfg, tr, stimulus[i], i)
  {
  }

  /** State `i` shows its phase, its operands in range. */
  ghost predicate Showing(m: Machine, d: Derivation, cfg: Config, tr: Trace, i: nat) {
    && tr.Shaped() && i <= tr.Length()
    && Shows(m, d, cfg.widths, tr.states[i], PhaseAt(m, d, tr, ResetEnv(cfg), i)) && OperandsReady(m, d, tr.states[i])
  }

  lemma FirstShows(m: Machine, d: Derivation, cfg: Config, s0: Env, stimulus: seq<Vector>, tr: Trace)
    requires Sound(m, d, cfg) && GoodStimulus(m, d, cfg, stimulus) && IsRun(cfg, s0, stimulus, tr)
    ensures Showing(m, d, cfg, tr, 0)
  {
    FirstState(m, d, cfg, s0, stimulus, tr.states[0]);
  }

  lemma ShowsOn(m: Machine, d: Derivation, cfg: Config, s0: Env, stimulus: seq<Vector>, tr: Trace, i: nat)
    requires Sound(m, d, cfg) && GoodStimulus(m, d, cfg, stimulus) && IsRun(cfg, s0, stimulus, tr)
    requires i < |stimulus| && Showing(m, d, cfg, tr, i)
    ensures Showing(m, d, cfg, tr, i + 1)
  {
    RunSteps(cfg, s0, stimulus, tr, i);
    PhaseStep(m, d, tr, ResetEnv(cfg), i);
    assert GoodVector(m, d, stimulus[i]);
    StepShows(m, d, cfg, tr, stimulus[i], i, PhaseAt(m, d, tr, ResetEnv(cfg), i));
  }

  lemma {:induction false} ShowsUpTo(m: Machine, d: Derivation, cfg: Config, tr: Trace, n: nat, i: nat)
    requires Showing(m, d, cfg, tr, 0) && i <= n
    requires forall j: nat | j < n && Showing(m, d, cfg, tr, j) :: Showing(m, d, cfg, tr, j + 1)
    ensures Showing(m, d, cfg, tr, i)
  {
    if i > 0 {
      ShowsUpTo(m, d, cfg, tr, n, i - 1);
    }
  }

  /** Every state of a run shows its phase. */
  lemma StateShows(m: Machine, d: Derivation, cfg: Config, s0: Env, stimulus: seq<Vector>, tr: Trace, i: nat)
    requires Sound(m, d, cfg) && GoodStimulus(m, d, cfg, stimulus) && IsRun(cfg, s0, stimulus, tr)
    requires i <= |stimulus|
    ensures Showing(m, d, cfg, tr, i)
  {
    FirstShows(m, d, cfg, s0, stimulus, tr);
    forall j: nat | j < |stimulus| && Showing(m, d, cfg, tr, j)
      ensures Showing(m, d, cfg, tr, j + 1)
    {
      ShowsOn(m, d, cfg, s0, stimulus, tr, j);
    }
    ShowsUpTo(m, d, cfg, tr, |stimulus|, i);
  }

  /** Every simulator run of the circuit follows the abstract machine. */
  lemma SimulatorFollows(m: Machine, d: Derivation, cfg: Config, s0: Env, stimulus: seq<Vector>, tr: Trace)
    requires Sound(m, d, cfg) && GoodStimulus(m, d, cfg, stimulus) && IsRun(cfg, s0, stimulus, tr)
    ensures Follows(m, d, cfg.widths, tr, ResetEnv(cfg))
  {
    var idle := ResetEnv(cfg);
    forall i | 0 <= i <= tr.Length()
      ensures Shows(m, d, cfg.widths, tr.states[i], PhaseAt(m, d, tr, idle, i))
    {
      StateShows(m, d, cfg, s0, stimulus, tr, i);
    }
    forall t | 0 <= t < tr.Length() && !tr.resets[t]
      ensures Ready(m, d, tr.seen[t], PhaseAt(m, d, tr, idle, t))
    {
      StateShows(m, d, cfg, s0, stimulus, tr, t);
      assert GoodVector(m, d, stimulus[t]) && StepsTo(cfg, tr, stimulus[t], t);
      SeenReady(m, d, cfg, tr.states[t], stimulus[t], PhaseAt(m, d, tr, idle, t));
    }
  }

  // ---------------------------------------------------------------------------
  // End to end
  // ---------------------------------------------------------------------------

  /** The operands of a computation next to what the registers now show. */
  function Result(m: Machine, d: Derivation, v: Row, s: Env): Env
    requires |v| == |d.inputs|
  {
    InputEnv(d.inputs, v) + map x | x in RegNames(m) :: Scalar(Lookup(s, x))
  }

  /** What a correct result is: the postcondition, abstract variables bound through the mapping. */
  predicate Delivers(m: Machine, d: Derivation, v: Row, s: Env)
    requires |v| == |d.inputs|
  {
    Holds(d.post, Simultaneous(Result(m, d, v, s), d.mapping))
  }

  ghost predicate Alike(a: Env, b: Env) {
    forall x: Name :: SameAt(a, b, x)
  }

  lemma {:induction false} LandAlike(a: Env, a': Env, b: Env, b': Env, us: Updates)
    requires Alike(a, a') && Alike(b, b')
    ensures Alike(Land(a, b, us), Land(a', b', us))
    decreases us
  {
    if us != [] {
      EvalSees(us[0].1, b, b');
      var y, v := us[0].0, Scalar(Eval(us[0].1, b));
      var c, c' := a[y := v], a'[y := v];
      forall x: Name
        ensures SameAt(c, c', x)
      {
        assert SameAt(a, a', x);
      }
      LandAlike(c, c', b, b', us[1..]);
    }
  }

  /** Registers showing an exit state deliver exactly when the derivation's exit binding does. */
  lemma ExitDelivers(m: Machine, d: Derivation, v: Row, k: nat, s: Env)
    requires DistinctNames(m, d) && Schedules(m, d) && |v| == |d.inputs| && k > 0
    requires RegsHold(m, s, LoopState(d, v, k))
    ensures Delivers(m, d, v, s) <==> Holds(d.post, ExitBinding(d, v, k))
  {
    var a, b := Result(m, d, v, s), LoopState(d, v, k);
    forall x: Name
      ensures SameAt(a, b, x)
    {
      if x in RegNames(m) {
        RegsHoldScalars(m, d, v, k, x);
      } else {
        LoopFrame(m, d, v, k, x);
        InputEnvScalars(d.inputs, v, x);
      }
    }
    LandAlike(a, b, a, b, d.mapping);
    EvalSees(d.post, Simultaneous(a, d.mapping), Simultaneous(b, d.mapping));
  }

  /** The conditions on loop and register widths that the kernel does not check. */
  ghost predicate LoopConditions(m: Machine, d: Derivation, widths: map<Name, int>) {
    && DistinctNames(m, d) && ReadsRight(m, d) && NeverX(m, d) && YesNo(m)
    && (forall v | InBox(v, d.Sizes()) :: Holds(d.guard, Entry(d, v)))
    && (forall v, j: nat | InBox(v, d.Sizes()) && Continuing(d, v, j) :: FitsAt(m, widths, LoopState(d, v, j)))
  }

  /** A loop within these conditions, and a circuit that schedules it. */
  ghost predicate SideConditions(m: Machine, d: Derivation, cfg: Config) {
    LoopConditions(m, d, cfg.widths) && Schedules(m, d) && Circuit(m, d, cfg)
  }

  /** The loop of `v` reaches its `j`-th state. */
  ghost predicate Continuing(d: Derivation, v: Row, j: nat)
    requires |v| == |d.inputs|
  {
    forall i | 0 <= i < j :: Holds(d.guard, LoopState(d, v, i))
  }

  ghost predicate CorrectOnBox(d: Derivation, max: nat) {
    forall v | InBox(v, d.Sizes()) :: Correct(d, v, max)
  }

  lemma CorrectIsSound(m: Machine, d: Derivation, cfg: Config, max: nat)
    requires SideConditions(m, d, cfg) && CorrectOnBox(d, max)
    ensures Sound(m, d, cfg)
  {
    forall v | InBox(v, d.Sizes())
      ensures exists k: nat :: RunsTo(m, d, cfg.widths, v, k)
    {
      var k :| 0 <= k <= max && CorrectIn(d, v, k);
      assert ExitsAfter(d, v, k);
      forall j | 0 <= j <= k
        ensures FitsAt(m, cfg.widths, LoopState(d, v, j))
      {
        assert Continuing(d, v, j);
      }
      assert RunsTo(m, d, cfg.widths, v, k);
    }
  }

  /** `i` follows an accepted start whose operands were computed, and the registers deliver the result. */
  ghost predicate Earned(m: Machine, d: Derivation, tr: Trace, t: nat, i: nat)
    requires tr.Shaped() && i <= tr.Length()
  {
    && 0 < t < i && Accepted(m, tr, t) && Undisturbed(tr, t, i)
    && InBox(OperandsAt(d, tr, t), d.Sizes()) && CorrectIn(d, OperandsAt(d, tr, t), i - t)
    && Delivers(m, d, OperandsAt(d, tr, t), tr.states[i])
  }

  /**
    A correct loop makes a correct circuit: in every run, whenever done is high the registers
    deliver the postcondition for the operands sampled at the start accepted as many cycles ago
    as the loop iterates.
    */
  lemma DoneDelivers(m: Machine, d: Derivation, cfg: Config, max: nat,
                     s0: Env, stimulus: seq<Vector>, tr: Trace, i: nat)
    requires SideConditions(m, d, cfg) && CorrectOnBox(d, max)
    requires GoodStimulus(m, d, cfg, stimulus) && IsRun(cfg, s0, stimulus, tr)
    requires i <= |stimulus| && Lookup(tr.states[i], m.done) == V(1)
    ensures exists t :: Earned(m, d, tr, t, i) && i - t <= max
  {
    CorrectIsSound(m, d, cfg, max);
    SimulatorFollows(m, d, cfg, s0, stimulus, tr);
    var t := DoneIsEarned(m, d, cfg.widths, tr, ResetEnv(cfg), i);
    EarnedAt(m, d, max, tr, t, i);
  }

  lemma EarnedAt(m: Machine, d: Derivation, max: nat, tr: Trace, t: nat, i: nat)
    requires DistinctNames(m, d) && Schedules(m, d) && CorrectOnBox(d, max)
    requires tr.Shaped() && i <= tr.Length() && Finished(m, d, tr, t, i)
    requires Holds(d.guard, Entry(d, OperandsAt(d, tr, t)))
    ensures Earned(m, d, tr, t, i) && i - t <= max
  {
    var v := OperandsAt(d, tr, t);
    var k :| 0 <= k <= max && CorrectIn(d, v, k);
    EntryGuardDecides(d, v, k, i - t);
    ExitDelivers(m, d, v, i - t, tr.states[i]);
  }

  /** End to end: an exhaustive `ok` of the kernel is a guarantee about every run of the circuit. */
  lemma VerdictReachesHardware(m: Machine, d: Derivation, cfg: Config, threshold: nat, max: nat,
                               s0: Env, stimulus: seq<Vector>, tr: Trace, i: nat)
    requires SideConditions(m, d, cfg)
    requires Discharge(d, threshold, max).ok && Discharge(d, threshold, max).mode == ExhaustiveProof
    requires GoodStimulus(m, d, cfg, stimulus) && IsRun(cfg, s0, stimulus, tr)
    requires i <= |stimulus| && Lookup(tr.states[i], m.done) == V(1)
    ensures exists t :: Earned(m, d, tr, t, i) && i - t <= max
  {
    ExhaustiveIsProof(d, threshold, max);
    DoneDelivers(m, d, cfg, max, s0, stimulus, tr, i);
  }

  /**
    What an accepted start delivers when done rises, whether or not the guard held at entry: the
    postcondition exactly when it holds where the guard first fails after a step.
    */
  lemma StartDeliversIff(m: Machine, d: Derivation, widths: map<Name, int>, tr: Trace, idle: Env, t: nat, k: nat)
    requires DistinctNames(m, d) && Schedules(m, d)
    requires Follows(m, d, widths, tr, idle)
    requires 0 < t && t + k <= tr.Length() && Accepted(m, tr, t) && Undisturbed(tr, t, t + k)
    requires ExitsAfter(d, OperandsAt(d, tr, t), k)
    ensures Lookup(tr.states[t + k], m.done) == V(1)
    ensures Delivers(m, d, OperandsAt(d, tr, t), tr.states[t + k]) <==> Holds(d.post, ExitBinding(d, OperandsAt(d, tr, t), k))
  {
    StartIsServed(m, d, widths, tr, idle, t, k);
    ExitDelivers(m, d, OperandsAt(d, tr, t), k, tr.states[t + k]);
  }
}
