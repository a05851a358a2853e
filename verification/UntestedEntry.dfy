/**
  Why the guard has to hold at entry: a loop the kernel accepts, scheduled as it stands, ends in a
  simulator run where done is high and the postcondition fails.
  */
module UntestedEntry {
  import opened Expressions
  import opened Domain
  import opened Kernel
  import opened Simulator
  import opened Handshake
  import opened Runs

  /** `x := 0; while x = 1 { x := x + 5 }` establishes `x = 0` without ever iterating. */
  function IdleLoop(): Derivation {
    var isZero := Bin(Eq, Var("x"), Const(0));
    Derivation(isZero, isZero, Var("x"), Bin(Eq, Var("x"), Const(1)),
               [("x", Const(0))], [("x", Bin(Add, Var("x"), Const(5)))], [("x", Var("x"))], [])
  }

  lemma IdleLoopStates()
    ensures Lookup(LoopState(IdleLoop(), [], 0), "x") == V(0)
    ensures Lookup(LoopState(IdleLoop(), [], 1), "x") == V(5)
    ensures Lookup(ExitBinding(IdleLoop(), [], 0), "x") == V(0)
    ensures Lookup(ExitBinding(IdleLoop(), [], 1), "x") == V(5)
  {
    var d := IdleLoop();
    var s0, s1 := map["x" := Scalar(V(0))], map["x" := Scalar(V(5))];
    assert d.init[1..] == [] && d.body[1..] == [] && d.mapping[1..] == [];
    assert Sequential(s0, d.init[1..]) == s0;
    assert Entry(d, []) == s0;
    assert Land(s1, s0, d.body[1..]) == s1;
    assert LoopState(d, [], 0) == s0;
    assert LoopState(d, [], 1) == s1;
    assert Land(s0, s0, d.mapping[1..]) == s0;
    assert Land(s1, s1, d.mapping[1..]) == s1;
  }

  const STATE: Name := "state"
  const DONE: Name := "done"
  const START: Name := "start"
  const RESET: Name := "rst"

  function Step(): Expr {
    Bin(Add, Var("x"), Const(5))
  }

  function IdleMachine(): Machine {
    Machine(STATE, DONE, START, [LoopReg("x", Const(0), [], Step())], Bin(Eq, Var("x"), Const(1)))
  }

  function IdleConfig(): Config {
    Config(RESET, false, map[STATE := 2, DONE := 1, "x" := 3], {STATE, "x"},
           ClockedUpdates(IdleMachine()), DoneUpdate(IdleMachine()), [(Reg(STATE), Const(0)), (Reg("x"), Const(0))])
  }

  /** One start, and one more cycle. */
  function IdleStimulus(): seq<Vector> {
    [map[START := V(1)], map[START := V(0)]]
  }

  lemma NamesDiffer()
    ensures STATE != DONE && STATE != START && DONE != START && "x" !in {STATE, DONE, START}
    ensures {CLK, RESET} !! {STATE, DONE, START, "x"}
  {
    assert STATE[0] == 's' && DONE[0] == 'd' && START[0] == 's' && "x"[0] == 'x' && RESET[0] == 'r' && CLK[0] == 'c';
    assert STATE[3] == 't' && START[3] == 'r';
  }

  lemma IdleRegs()
    ensures RegNames(IdleMachine()) == {"x"} && InputNamesOf(IdleLoop()) == {}
  {
    assert IdleMachine().regs[0].name == "x";
  }

  lemma IdleNames()
    ensures DistinctNames(IdleMachine(), IdleLoop()) && Schedules(IdleMachine(), IdleLoop())
  {
    var m, d := IdleMachine(), IdleLoop();
    NamesDiffer();
    IdleRegs();
    assert BodyOf(m.regs[0]) == Step();
    assert d.init[0] == ("x", Const(0)) && Targets(d.init) == {"x"};
  }

  lemma IdleReads()
    ensures ReadsRight(IdleMachine(), IdleLoop()) && NeverX(IdleMachine(), IdleLoop()) && YesNo(IdleMachine())
  {
    var m, d := IdleMachine(), IdleLoop();
    IdleRegs();
    assert BodyOf(m.regs[0]) == Step();
    assert Reads(Step()) == {"x"} && Reads(m.guard) == {"x"} && Bases(m.guard) == {} && Reads(d.init[0].1) == {};
    SafeIsDefined(Const(0), {});
    SafeIsDefined(Step(), {"x"});
    SafeIsDefined(m.guard, {"x"});
  }

  lemma IdleRuns()
    ensures ExitsAfter(IdleLoop(), [], 1) && RunsAndFits(IdleMachine(), IdleLoop(), IdleConfig().widths)
  {
    var m, d, widths := IdleMachine(), IdleLoop(), IdleConfig().widths;
    NamesDiffer();
    IdleRegs();
    IdleLoopStates();
    assert Pow2(3) == 8;
    forall v | InBox(v, d.Sizes())
      ensures exists k: nat :: RunsTo(m, d, widths, v, k)
    {
      assert v == [];
      assert RunsTo(m, d, widths, v, 1);
    }
  }

  lemma IdleResets()
    ensures ResetTargets(IdleConfig(), IdleConfig().reset) == [(Reg(STATE), Const(0)), (Reg("x"), Const(0))]
  {
    var cfg := IdleConfig();
    assert cfg.reset[1..] == [(Reg("x"), Const(0))] && cfg.reset[1..][1..] == [];
  }

  lemma IdleCircuit()
    ensures Circuit(IdleMachine(), IdleLoop(), IdleConfig())
  {
    var m, cfg := IdleMachine(), IdleConfig();
    var us := ResetTargets(cfg, cfg.reset);
    NamesDiffer();
    IdleRegs();
    IdleResets();
    assert us[0] == (Reg(STATE), Const(0)) && us[1] == (Reg("x"), Const(0));
    assert BasesOf(us) == {STATE, "x"};
  }

  lemma IdleIsSound()
    ensures Sound(IdleMachine(), IdleLoop(), IdleConfig())
  {
    IdleNames();
    IdleReads();
    IdleRuns();
    IdleCircuit();
  }

  lemma IdleIsGood()
    ensures GoodStimulus(IdleMachine(), IdleLoop(), IdleConfig(), IdleStimulus())
    ensures forall i | 0 <= i < 2 :: !ResetAsserted(IdleConfig(), IdleStimulus()[i])
  {
    NamesDiffer();
    IdleRegs();
    var stimulus := IdleStimulus();
    assert stimulus[0].Keys == {START} && stimulus[1].Keys == {START};
    assert START in stimulus[0];
  }

  /** The simulator has a run on every stimulus. */
  lemma {:induction false} RunExists(cfg: Config, s0: Env, stimulus: seq<Vector>, n: nat) returns (tr: Trace)
    requires n <= |stimulus|
    ensures tr.Shaped() && tr.Length() == n && StartsWith(cfg, s0, Zeros(cfg, stimulus), tr.states[0])
    ensures forall i | 0 <= i < n :: StepsTo(cfg, tr, stimulus[i], i)
    decreases n
  {
    if n == 0 {
      var zeros := Zeros(cfg, stimulus);
      tr := Trace([Edge(cfg, Edge(cfg, s0, zeros, true), zeros, false)], [], []);
    } else {
      var was := RunExists(cfg, s0, stimulus, n - 1);
      var s, inputs := was.states[n - 1], stimulus[n - 1];
      var isReset := ResetAsserted(cfg, inputs);
      tr := Trace(was.states + [Edge(cfg, s, inputs, isReset)], was.seen + [Seen(cfg, s, inputs)], was.resets + [isReset]);
      forall i | 0 <= i < n
        ensures StepsTo(cfg, tr, stimulus[i], i)
      {
        if i < n - 1 {
          assert StepsTo(cfg, was, stimulus[i], i);
        }
      }
    }
  }

  lemma SeesStart(m: Machine, d: Derivation, cfg: Config, s: Env, inputs: Vector)
    requires DistinctNames(m, d) && Circuit(m, d, cfg) && m.start in inputs
    ensures Lookup(Seen(cfg, s, inputs), m.start) == inputs[m.start]
  {
    var s1 := SetInputs(cfg, s, inputs);
    DoneSettles(m, d, cfg, s1);
    assert SameAt(Seen(cfg, s, inputs), s1, m.start) && m.start in Driven(cfg, inputs);
  }

  lemma NeverReset(cfg: Config, s0: Env, stimulus: seq<Vector>, tr: Trace)
    requires IsRun(cfg, s0, stimulus, tr) && forall i | 0 <= i < |stimulus| :: !ResetAsserted(cfg, stimulus[i])
    ensures forall j | 0 <= j < |stimulus| :: !tr.resets[j]
  {
    forall j | 0 <= j < |stimulus|
      ensures !tr.resets[j]
    {
      assert StepsTo(cfg, tr, stimulus[j], j);
    }
  }

  /** A start in the first vector is accepted, and nothing disturbs it while reset stays low. */
  lemma FirstStartAccepted(m: Machine, d: Derivation, cfg: Config, s0: Env, stimulus: seq<Vector>, tr: Trace)
    requires Sound(m, d, cfg) && GoodStimulus(m, d, cfg, stimulus) && IsRun(cfg, s0, stimulus, tr) && |stimulus| > 0
    requires (forall i | 0 <= i < |stimulus| :: !ResetAsserted(cfg, stimulus[i]))
    requires m.start in stimulus[0] && stimulus[0][m.start] == V(1)
    ensures Accepted(m, tr, 1) && Undisturbed(tr, 1, |stimulus|)
  {
    NeverReset(cfg, s0, stimulus, tr);
    assert StepsTo(cfg, tr, stimulus[0], 0);
    SeesStart(m, d, cfg, tr.states[0], stimulus[0]);
    FirstState(m, d, cfg, s0, stimulus, tr.states[0]);
  }

  /** A start whose first exit fails the postcondition ends with done high over registers that fail it. */
  lemma WrongResult(m: Machine, d: Derivation, cfg: Config, s0: Env, stimulus: seq<Vector>, tr: Trace, t: nat, k: nat)
    requires Sound(m, d, cfg) && GoodStimulus(m, d, cfg, stimulus) && IsRun(cfg, s0, stimulus, tr)
    requires 0 < t && t + k <= tr.Length() && Accepted(m, tr, t) && Undisturbed(tr, t, t + k)
    requires ExitsAfter(d, OperandsAt(d, tr, t), k) && !Holds(d.post, ExitBinding(d, OperandsAt(d, tr, t), k))
    ensures Lookup(tr.states[t + k], m.done) == V(1) && !Delivers(m, d, OperandsAt(d, tr, t), tr.states[t + k])
  {
    SimulatorFollows(m, d, cfg, s0, stimulus, tr);
    StartDeliversIff(m, d, cfg.widths, tr, ResetEnv(cfg), t, k);
  }

  lemma IdleOperands(tr: Trace)
    requires tr.Shaped() && 0 < tr.Length()
    ensures OperandsAt(IdleLoop(), tr, 1) == []
  {
  }

  /**
    The kernel accepts this loop, since it never iterates; the circuit scheduled from it steps once,
    and on an accepted start raises done over registers that fail the postcondition.
    */
  lemma UntestedEntryBreaks(threshold: nat, max: nat, s0: Env) returns (tr: Trace)
    ensures Discharge(IdleLoop(), threshold, max).ok && Sound(IdleMachine(), IdleLoop(), IdleConfig())
    ensures IsRun(IdleConfig(), s0, IdleStimulus(), tr) && Accepted(IdleMachine(), tr, 1)
    ensures Lookup(tr.states[2], DONE) == V(1)
    ensures !Delivers(IdleMachine(), IdleLoop(), OperandsAt(IdleLoop(), tr, 1), tr.states[2])
  {
    var m, d, cfg, stimulus := IdleMachine(), IdleLoop(), IdleConfig(), IdleStimulus();
    IdleAccepted(threshold, max);
    IdleIsSound();
    IdleIsGood();
    tr := RunExists(cfg, s0, stimulus, 2);
    FirstStartAccepted(m, d, cfg, s0, stimulus, tr);
    IdleOperands(tr);
    IdleRuns();
    IdlePost();
    WrongResult(m, d, cfg, s0, stimulus, tr, 1, 1);
  }

  lemma IdlePost()
    ensures !Holds(IdleLoop().post, ExitBinding(IdleLoop(), [], 1))
  {
    IdleLoopStates();
  }

  lemma IdleAccepted(threshold: nat, max: nat)
    ensures Discharge(IdleLoop(), threshold, max).ok
  {
    var d := IdleLoop();
    IdleLoopStates();
    assert CorrectIn(d, [], 0);
    ValuationsFit(d, threshold);
    VerdictMeaning(d, threshold, max);
    forall v | v in Valuations(d.Sizes(), threshold)
      ensures |v| == |d.inputs| && Correct(d, v, max)
    {
      assert v == [];
    }
  }
}
