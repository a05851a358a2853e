/**
  The engine running the verified rules. Proved: a committed LoopIntroduction step is a loop the
  kernel accepted, whatever the picker proposed; and a chain of the three rules that the engine
  recorded ends in the spec whose circuit delivers the postcondition.
  */
module VerifiedChain {
  import opened Expressions
  import opened Grammar
  import opened Kernel
  import opened Domain
  import NativeKernel
  import opened Simulator
  import opened Handshake
  import opened Runs
  import opened Refinement
  import Engine

  datatype Params =
    | IntroductionParams(action: Name, request: Request, freshVars: seq<FreshVar>)
    | ScheduleParams(action: Name, ctl: Control)
    | InitializationParams(resetName: Name, values: Entries)
    | OtherParams(arguments: seq<Text>)

  const INTRODUCTION: Name := "LoopIntroduction"
  const SCHEDULE: Name := "ScheduleHandshakeFSM"
  const INITIALIZATION: Name := "Initialization"

  /** The kernel bounds LoopIntroduction runs with. */
  datatype Bounds = Bounds(threshold: nat, max: nat)

  /** The three rules on their own parameters; any other rule is arbitrary. */
  function Apply(b: Bounds, other: (Name, Spec, Params) -> Option<Spec>, rule: Name, spec: Spec, params: Params): Option<Spec> {
    if rule == INTRODUCTION then
      if params.IntroductionParams? && NativeKernel.Readable(params.request)
      then Some(Introduction(spec, params.action, params.request, params.freshVars, b.threshold, b.max))
      else None
    else if rule == SCHEDULE then
      if params.ScheduleParams? then Schedule(spec, params.action, params.ctl) else None
    else if rule == INITIALIZATION then
      if params.InitializationParams? then Some(Initialize(spec, params.resetName, params.values)) else None
    else other(rule, spec, params)
  }

  ghost predicate Runs3(rules: Engine.RuleSet<Spec, Params>, b: Bounds, other: (Name, Spec, Params) -> Option<Spec>) {
    forall rule, spec, params :: rules.apply(rule, spec, params) == Apply(b, other, rule, spec, params)
  }

  /** Whatever was proposed, a LoopIntroduction step the engine committed is a loop the kernel accepted. */
  lemma CommittedLoopsAreVerified(
      rules: Engine.RuleSet<Spec, Params>, b: Bounds, other: (Name, Spec, Params) -> Option<Spec>,
      start: Spec, chain: seq<Engine.Step<Spec, Params>>, k: nat)
    requires Runs3(rules, b, other) && Engine.Recorded(rules, start, chain)
    requires k < |chain| && chain[k].rule == INTRODUCTION
    ensures var q := chain[k].params;
      && q.IntroductionParams? && NativeKernel.Readable(q.request)
      && Discharge(NativeKernel.Read(q.request), b.threshold, b.max).ok
      && ActionAt(chain[k].pre.actions, q.action).Some?
      && chain[k].post == Introduced(chain[k].pre, ActionAt(chain[k].pre.actions, q.action).value, q.request, q.freshVars)
  {
    assert Engine.StepRecorded(rules, start, chain, k);
  }

  /** The steps of the verified derivation, in order. */
  ghost predicate DerivationChain(chain: seq<Engine.Step<Spec, Params>>, action: Name, p: Request, plan: Plan) {
    && |chain| == 3
    && chain[0].rule == INTRODUCTION && chain[0].params == IntroductionParams(action, p, plan.freshVars)
    && chain[1].rule == SCHEDULE && chain[1].params == ScheduleParams(action, plan.ctl)
    && chain[2].rule == INITIALIZATION && chain[2].params == InitializationParams(plan.resetName, plan.resets)
  }

  lemma RuleNamesDiffer()
    ensures |INTRODUCTION| == 16 && |SCHEDULE| == 20 && |INITIALIZATION| == 14
  {
  }

  /** A recorded chain of the three rules ends in the derived spec, and the kernel accepted its loop. */
  lemma ChainDerives(
      rules: Engine.RuleSet<Spec, Params>, b: Bounds, other: (Name, Spec, Params) -> Option<Spec>,
      start: Spec, chain: seq<Engine.Step<Spec, Params>>, p: Request, plan: Plan)
    requires Runs3(rules, b, other) && Engine.Recorded(rules, start, chain)
    requires OneStatement(start, plan) && DerivationChain(chain, start.actions[0].name, p, plan) && WellTexted(p)
    ensures NativeKernel.Readable(p) && Discharge(NativeKernel.Read(p), b.threshold, b.max).ok
    ensures Engine.Tip(start, chain) == Derived(start, p, plan)
  {
    RuleNamesDiffer();
    CommittedLoopsAreVerified(rules, b, other, start, chain, 0);
    assert chain[..0] == [];
    assert Engine.StepRecorded(rules, start, chain, 0);
    assert Engine.StepRecorded(rules, start, chain, 1);
    assert Engine.StepRecorded(rules, start, chain, 2);
    assert ActionAt(start.actions, start.actions[0].name) == Some(0);
    assert chain[0].post == Introduced(start, 0, p, plan.freshVars);
    assert chain[1].pre == chain[0].post && chain[2].pre == chain[1].post;
  }

  lemma DischargeMode(d: Derivation, threshold: nat, max: nat)
    ensures Discharge(d, threshold, max).mode == ModeOf(d.Sizes(), threshold)
  {
  }

  lemma ChainReads(
      rules: Engine.RuleSet<Spec, Params>, b: Bounds, other: (Name, Spec, Params) -> Option<Spec>,
      start: Spec, r: Spec, chain: seq<Engine.Step<Spec, Params>>, p: Request, plan: Plan,
      resetPort: Name, activeLow: bool, m: Machine, d: Derivation, cfg: Config)
    requires Runs3(rules, b, other) && Engine.Recorded(rules, start, chain) && r == Engine.Tip(start, chain)
    requires PlanFits(start, p, plan, resetPort) && WellTexted(p) && Bases(ParseExpr(true, p.guard, 0).e) == {}
    requires DerivationChain(chain, start.actions[0].name, p, plan)
    requires NativeKernel.Readable(p) && d == NativeKernel.Read(p) && m == MachineOf(plan.ctl, p)
    requires SpecParses(r) && cfg == Digest(r, resetPort, activeLow)
    ensures Refinement.Reads(start, r, p, plan, resetPort, activeLow, m, d, cfg)
    ensures Discharge(d, b.threshold, b.max).ok
  {
    ChainDerives(rules, b, other, start, chain, p, plan);
  }

  /**
    From a finished engine run to hardware: if the chain the engine recorded is LoopIntroduction,
    ScheduleHandshakeFSM, Initialization, then in every run of the returned spec's circuit, done
    means the postcondition holds of the operands it was started with.
    */
  lemma EngineDelivers(
      rules: Engine.RuleSet<Spec, Params>, b: Bounds, other: (Name, Spec, Params) -> Option<Spec>,
      start: Spec, chain: seq<Engine.Step<Spec, Params>>, p: Request, plan: Plan,
      resetPort: Name, activeLow: bool, m: Machine, d: Derivation, cfg: Config, r: Spec,
      s0: Env, stimulus: seq<Vector>, tr: Trace, i: nat)
    requires Runs3(rules, b, other) && Engine.Recorded(rules, start, chain) && r == Engine.Tip(start, chain)
    requires PlanFits(start, p, plan, resetPort) && WellTexted(p) && Bases(ParseExpr(true, p.guard, 0).e) == {}
    requires DerivationChain(chain, start.actions[0].name, p, plan)
    requires NativeKernel.Readable(p) && d == NativeKernel.Read(p) && m == MachineOf(plan.ctl, p)
    requires SpecParses(r) && cfg == Digest(r, resetPort, activeLow)
    requires ModeOf(d.Sizes(), b.threshold) == ExhaustiveProof
    requires LoopConditions(m, d, cfg.widths) && GoodStimulus(m, d, cfg, stimulus) && IsRun(cfg, s0, stimulus, tr)
    requires i <= |stimulus| && tr.Shaped() && tr.Length() == |stimulus| && Lookup(tr.states[i], plan.ctl.done) == V(1)
    ensures exists t :: Earned(m, d, tr, t, i) && i - t <= b.max
  {
    ChainReads(rules, b, other, start, r, chain, p, plan, resetPort, activeLow, m, d, cfg);
    DischargeMode(d, b.threshold, b.max);
    DerivationDelivers(start, r, p, plan, resetPort, activeLow, m, d, cfg, b.threshold, b.max, s0, stimulus, tr, i);
  }
}
