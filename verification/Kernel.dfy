/**
  The reference obligation kernel. A candidate loop is walked for every enumerated input and
  the three iteration obligations O1, O2, O3 are swept in order. Proved: the loops of the kernel
  compute a verdict that is `ok` exactly when, for every enumerated input, the loop keeps its
  invariant, strictly decreases its variant, exits within the iteration bound and establishes
  the postcondition; a negative verdict carries the first failing input.
  */
module Kernel {
  import opened Expressions
  import opened Domain

  /** `inputs` are the input names in sorted order with their widths; dictionaries keep their order. */
  datatype Derivation = Derivation(
    post: Expr, inv: Expr, variant: Expr, guard: Expr,
    init: Updates, body: Updates, mapping: Updates, inputs: seq<(Name, nat)>)
  {
    function Sizes(): (r: seq<nat>)
      ensures AllPositive(r) && |r| == |inputs|
    {
      seq(|inputs|, k requires 0 <= k < |inputs| => Pow2(inputs[k].1))
    }
  }

  datatype Obligation = O1 | O2 | O3

  datatype Detail =
    | InvariantFailsAfterInit
    | InvariantFailsAtEntry
    | BodyBreaksInvariant
    | VariantNotDecreasing(before: Value, after: Value)
    | GuardStillHolds(maxIters: nat)
    | PostFails

  datatype CounterExample = CounterExample(obligation: Obligation, inputs: Row, state: Env, detail: Detail)

  datatype Verdict = Verdict(
    ok: bool, mode: Mode, cases: nat, o1: bool, o2: bool, o3: bool, cex: Option<CounterExample>)

  // ---------------------------------------------------------------------------
  // The loop of one input
  // ---------------------------------------------------------------------------

  function InputEnv(inputs: seq<(Name, nat)>, v: Row): Env
    requires |v| == |inputs|
  {
    if inputs == [] then map[]
    else
      var n := |inputs| - 1;
      InputEnv(inputs[..n], v[..n])[inputs[n].0 := Scalar(V(v[n]))]
  }

  function Entry(d: Derivation, v: Row): Env
    requires |v| == |d.inputs|
  {
    Sequential(InputEnv(d.inputs, v), d.init)
  }

  function LoopState(d: Derivation, v: Row, k: nat): Env
    requires |v| == |d.inputs|
  {
    if k == 0 then Entry(d, v) else Simultaneous(LoopState(d, v, k - 1), d.body)
  }

  function Decreases(before: Value, after: Value): bool {
    before.V? && after.V? && after.n < before.n
  }

  // ---------------------------------------------------------------------------
  // What each sweep reports for one input
  // ---------------------------------------------------------------------------

  function O1At(d: Derivation, v: Row): Option<CounterExample>
    requires |v| == |d.inputs|
  {
    if Holds(d.inv, Entry(d, v)) then None
    else Some(CounterExample(O1, v, Entry(d, v), InvariantFailsAfterInit))
  }

  /** O2 from the `k`-th loop state on. */
  function O2From(d: Derivation, v: Row, k: nat, max: nat): Option<CounterExample>
    requires |v| == |d.inputs| && k <= max
    decreases max - k
  {
    var env := LoopState(d, v, k);
    if !Holds(d.guard, env) then None
    else if k == max then Some(CounterExample(O2, v, env, GuardStillHolds(max)))
    else
      var nxt := LoopState(d, v, k + 1);
      var before, after := Eval(d.variant, env), Eval(d.variant, nxt);
      if !Holds(d.inv, nxt) then Some(CounterExample(O2, v, env, BodyBreaksInvariant))
      else if !Decreases(before, after) then Some(CounterExample(O2, v, env, VariantNotDecreasing(before, after)))
      else O2From(d, v, k + 1, max)
  }

  function O2At(d: Derivation, v: Row, max: nat): Option<CounterExample>
    requires |v| == |d.inputs|
  {
    if !Holds(d.inv, Entry(d, v)) then Some(CounterExample(O2, v, Entry(d, v), InvariantFailsAtEntry))
    else O2From(d, v, 0, max)
  }

  /** Where the bounded walk of O3 stops. */
  function Stop(d: Derivation, v: Row, k: nat, max: nat): nat
    requires |v| == |d.inputs| && k <= max
    decreases max - k
  {
    if Holds(d.guard, LoopState(d, v, k)) && k < max then Stop(d, v, k + 1, max) else k
  }

  /** The abstract variables bound through the mapping, every expression read at the exit. */
  function ExitBinding(d: Derivation, v: Row, k: nat): Env
    requires |v| == |d.inputs|
  {
    Simultaneous(LoopState(d, v, k), d.mapping)
  }

  function O3At(d: Derivation, v: Row, max: nat): Option<CounterExample>
    requires |v| == |d.inputs|
  {
    var post := ExitBinding(d, v, Stop(d, v, 0, max));
    if Holds(d.post, post) then None else Some(CounterExample(O3, v, post, PostFails))
  }

  function FailAt(ob: Obligation, d: Derivation, v: Row, max: nat): Option<CounterExample>
    requires |v| == |d.inputs|
  {
    match ob
    case O1 => O1At(d, v)
    case O2 => O2At(d, v, max)
    case O3 => O3At(d, v, max)
  }

  predicate RowsFit(d: Derivation, vs: seq<Row>) {
    forall i | 0 <= i < |vs| :: |vs[i]| == |d.inputs|
  }

  function FirstFail(ob: Obligation, d: Derivation, vs: seq<Row>, max: nat): Option<CounterExample>
    requires RowsFit(d, vs)
  {
    if vs == [] then None
    else
      var init := FirstFail(ob, d, vs[..|vs| - 1], max);
      if init.Some? then init else FailAt(ob, d, vs[|vs| - 1], max)
  }

  /** The result envelope: the sweeps run in order and the first failing one ends the discharge. */
  function Conclude(d: Derivation, vs: seq<Row>, mode: Mode, max: nat): Verdict
    requires RowsFit(d, vs)
  {
    var c1 := FirstFail(O1, d, vs, max);
    if c1.Some? then Verdict(false, mode, |vs|, false, false, false, c1)
    else
      var c2 := FirstFail(O2, d, vs, max);
      if c2.Some? then Verdict(false, mode, |vs|, true, false, false, c2)
      else
        var c3 := FirstFail(O3, d, vs, max);
        if c3.Some? then Verdict(false, mode, |vs|, true, true, false, c3)
        else Verdict(true, mode, |vs|, true, true, true, None)
  }

  lemma ValuationsFit(d: Derivation, threshold: nat)
    ensures RowsFit(d, Valuations(d.Sizes(), threshold))
    ensures forall v :: v in Valuations(d.Sizes(), threshold) ==> InBox(v, d.Sizes())
  {
    forall v | v in Valuations(d.Sizes(), threshold)
      ensures InBox(v, d.Sizes())
    {
      ProductHas(d.Sizes(), v);
      BatteryInBox(d.Sizes(), v);
    }
    var vs := Valuations(d.Sizes(), threshold);
    assert forall i | 0 <= i < |vs| :: vs[i] in vs;
  }

  function Discharge(d: Derivation, threshold: nat, max: nat): Verdict {
    ValuationsFit(d, threshold);
    Conclude(d, Valuations(d.Sizes(), threshold), ModeOf(d.Sizes(), threshold), max)
  }

  // ---------------------------------------------------------------------------
  // The reference implementation
  // ---------------------------------------------------------------------------

  /** `dict(zip(names, combo))` */
  method ZipInputs(inputs: seq<(Name, nat)>, v: Row) returns (env: Env)
    requires |v| == |inputs|
    ensures env == InputEnv(inputs, v)
  {
    env := map[];
    for k := 0 to |inputs|
      invariant env == InputEnv(inputs[..k], v[..k])
    {
      assert inputs[..k + 1][..k] == inputs[..k] && v[..k + 1][..k] == v[..k];
      env := env[inputs[k].0 := Scalar(V(v[k]))];
    }
    assert inputs[..|inputs|] == inputs && v[..|inputs|] == v;
  }

  /** `_apply_init`: the init assignments in order. */
  method ApplyInit(inputs: Env, init: Updates) returns (env: Env)
    ensures env == Sequential(inputs, init)
  {
    env := inputs;
    for k := 0 to |init|
      invariant Sequential(env, init[k..]) == Sequential(inputs, init)
    {
      assert init[k..][1..] == init[k + 1..];
      env := env[init[k].0 := Scalar(Eval(init[k].1, env))];
    }
  }

  /** `_step_body`: every right-hand side reads the state before the step. */
  method StepBody(env: Env, body: Updates) returns (nxt: Env)
    ensures nxt == Simultaneous(env, body)
  {
    nxt := env;
    for k := 0 to |body|
      invariant Land(nxt, env, body[k..]) == Simultaneous(env, body)
    {
      assert body[k..][1..] == body[k + 1..];
      nxt := nxt[body[k].0 := Scalar(Eval(body[k].1, env))];
    }
  }

  lemma FirstFailStep(ob: Obligation, d: Derivation, vs: seq<Row>, max: nat, i: nat)
    requires RowsFit(d, vs) && i < |vs|
    ensures FirstFail(ob, d, vs[..i + 1], max) ==
      if FirstFail(ob, d, vs[..i], max).Some? then FirstFail(ob, d, vs[..i], max) else FailAt(ob, d, vs[i], max)
  {
    assert vs[..i + 1][..i] == vs[..i];
  }

  /** A failure early in the list is the failure of the whole list. */
  lemma {:induction false} FirstFailKeeps(ob: Obligation, d: Derivation, vs: seq<Row>, max: nat, i: nat)
    requires RowsFit(d, vs) && i <= |vs| && FirstFail(ob, d, vs[..i], max).Some?
    ensures FirstFail(ob, d, vs, max) == FirstFail(ob, d, vs[..i], max)
    decreases |vs| - i
  {
    if i == |vs| {
      assert vs[..i] == vs;
    } else {
      FirstFailStep(ob, d, vs, max, i);
      FirstFailKeeps(ob, d, vs, max, i + 1);
    }
  }

  method CheckO1(d: Derivation, valuations: seq<Row>, ghost max: nat) returns (cex: Option<CounterExample>)
    requires RowsFit(d, valuations)
    ensures cex == FirstFail(O1, d, valuations, max)
  {
    for i := 0 to |valuations|
      invariant FirstFail(O1, d, valuations[..i], max) == None
    {
      var inputs := ZipInputs(d.inputs, valuations[i]);
      var env := ApplyInit(inputs, d.init);
      FirstFailStep(O1, d, valuations, max, i);
      if Eval(d.inv, env) != V(1) {
        FirstFailKeeps(O1, d, valuations, max, i + 1);
        return Some(CounterExample(O1, valuations[i], env, InvariantFailsAfterInit));
      }
    }
    assert valuations[..|valuations|] == valuations;
    return None;
  }

  /** The walk of O2 for one input. */
  method WalkO2(d: Derivation, v: Row, max: nat) returns (cex: Option<CounterExample>)
    requires |v| == |d.inputs|
    ensures cex == O2At(d, v, max)
  {
    var inputs := ZipInputs(d.inputs, v);
    var env := ApplyInit(inputs, d.init);
    if Eval(d.inv, env) != V(1) {
      return Some(CounterExample(O2, v, env, InvariantFailsAtEntry));
    }
    var iters := 0;
    while Eval(d.guard, env) == V(1) && iters < max
      invariant 0 <= iters <= max
      invariant env == LoopState(d, v, iters)
      invariant O2From(d, v, iters, max) == O2At(d, v, max)
    {
      var before := Eval(d.variant, env);
      var nxt := StepBody(env, d.body);
      if Eval(d.inv, nxt) != V(1) {
        return Some(CounterExample(O2, v, env, BodyBreaksInvariant));
      }
      var after := Eval(d.variant, nxt);
      if before.X? || after.X? || !(after.n < before.n) {
        return Some(CounterExample(O2, v, env, VariantNotDecreasing(before, after)));
      }
      env := nxt;
      iters := iters + 1;
    }
    if iters >= max && Eval(d.guard, env) == V(1) {
      return Some(CounterExample(O2, v, env, GuardStillHolds(max)));
    }
    return None;
  }

  method CheckO2(d: Derivation, valuations: seq<Row>, max: nat) returns (cex: Option<CounterExample>)
    requires RowsFit(d, valuations)
    ensures cex == FirstFail(O2, d, valuations, max)
  {
    for i := 0 to |valuations|
      invariant FirstFail(O2, d, valuations[..i], max) == None
    {
      cex := WalkO2(d, valuations[i], max);
      FirstFailStep(O2, d, valuations, max, i);
      if cex.Some? {
        FirstFailKeeps(O2, d, valuations, max, i + 1);
        return;
      }
    }
    assert valuations[..|valuations|] == valuations;
    return None;
  }

  /** The walk of O3 for one input. */
  method WalkO3(d: Derivation, v: Row, max: nat) returns (cex: Option<CounterExample>)
    requires |v| == |d.inputs|
    ensures cex == O3At(d, v, max)
  {
    var inputs := ZipInputs(d.inputs, v);
    var env := ApplyInit(inputs, d.init);
    var iters := 0;
    while Eval(d.guard, env) == V(1) && iters < max
      invariant 0 <= iters <= max
      invariant env == LoopState(d, v, iters)
      invariant Stop(d, v, iters, max) == Stop(d, v, 0, max)
    {
      env := StepBody(env, d.body);
      iters := iters + 1;
    }
    var postEnv := StepBody(env, d.mapping);
    if Eval(d.post, postEnv) != V(1) {
      return Some(CounterExample(O3, v, postEnv, PostFails));
    }
    return None;
  }

  method CheckO3(d: Derivation, valuations: seq<Row>, max: nat) returns (cex: Option<CounterExample>)
    requires RowsFit(d, valuations)
    ensures cex == FirstFail(O3, d, valuations, max)
  {
    for i := 0 to |valuations|
      invariant FirstFail(O3, d, valuations[..i], max) == None
    {
      cex := WalkO3(d, valuations[i], max);
      FirstFailStep(O3, d, valuations, max, i);
      if cex.Some? {
        FirstFailKeeps(O3, d, valuations, max, i + 1);
        return;
      }
    }
    assert valuations[..|valuations|] == valuations;
    return None;
  }

  /** `discharge_loop_obligations` */
  method DischargeLoopObligations(d: Derivation, threshold: nat, max: nat) returns (r: Verdict)
    ensures r == Discharge(d, threshold, max)
  {
    ValuationsFit(d, threshold);
    var valuations, mode := InputDomain(d.Sizes(), threshold);
    var cex := CheckO1(d, valuations, max);
    if cex.Some? {
      return Verdict(false, mode, |valuations|, false, false, false, cex);
    }
    cex := CheckO2(d, valuations, max);
    if cex.Some? {
      return Verdict(false, mode, |valuations|, true, false, false, cex);
    }
    cex := CheckO3(d, valuations, max);
    if cex.Some? {
      return Verdict(false, mode, |valuations|, true, true, false, cex);
    }
    return Verdict(true, mode, |valuations|, true, true, true, None);
  }

  // ---------------------------------------------------------------------------
  // What a verdict means
  // ---------------------------------------------------------------------------

  /** The variant strictly decreases from the `j`-th loop state to the next. */
  predicate VariantFalls(d: Derivation, v: Row, j: nat)
    requires |v| == |d.inputs|
  {
    Decreases(Eval(d.variant, LoopState(d, v, j)), Eval(d.variant, LoopState(d, v, j + 1)))
  }

  /** The loop of input `v` runs `k` times and does what the derivation claims. */
  ghost predicate CorrectIn(d: Derivation, v: Row, k: nat)
    requires |v| == |d.inputs|
  {
    && (forall j | 0 <= j < k :: Holds(d.guard, LoopState(d, v, j)))
    && !Holds(d.guard, LoopState(d, v, k))
    && (forall j | 0 <= j <= k :: Holds(d.inv, LoopState(d, v, j)))
    && (forall j | 0 <= j < k :: VariantFalls(d, v, j))
    && Holds(d.post, ExitBinding(d, v, k))
  }

  ghost predicate Correct(d: Derivation, v: Row, max: nat)
    requires |v| == |d.inputs|
  {
    exists k | 0 <= k <= max :: CorrectIn(d, v, k)
  }

  lemma {:induction false} WalkMeaning(d: Derivation, v: Row, k: nat, max: nat)
    requires |v| == |d.inputs| && k <= max
    requires Holds(d.inv, LoopState(d, v, k))
    requires O2From(d, v, k, max) == None
    ensures var e := Stop(d, v, k, max);
      && k <= e <= max
      && (forall j | k <= j < e :: Holds(d.guard, LoopState(d, v, j)))
      && !Holds(d.guard, LoopState(d, v, e))
      && (forall j | k <= j <= e :: Holds(d.inv, LoopState(d, v, j)))
      && (forall j | k <= j < e :: VariantFalls(d, v, j))
    decreases max - k
  {
    if Holds(d.guard, LoopState(d, v, k)) && k < max {
      WalkMeaning(d, v, k + 1, max);
    }
  }

  lemma {:induction false} WalkComplete(d: Derivation, v: Row, k: nat, e: nat, max: nat)
    requires |v| == |d.inputs| && k <= e <= max && CorrectIn(d, v, e)
    ensures O2From(d, v, k, max) == None && Stop(d, v, k, max) == e
    decreases e - k
  {
    if k < e {
      assert VariantFalls(d, v, k);
      WalkComplete(d, v, k + 1, e, max);
    }
  }

  /** The three sweeps together are silent about an input exactly when its loop is correct. */
  lemma SweepsMeanCorrect(d: Derivation, v: Row, max: nat)
    requires |v| == |d.inputs|
    ensures O1At(d, v) == None && O2At(d, v, max) == None && O3At(d, v, max) == None <==> Correct(d, v, max)
  {
    if O1At(d, v) == None && O2At(d, v, max) == None && O3At(d, v, max) == None {
      WalkMeaning(d, v, 0, max);
      assert CorrectIn(d, v, Stop(d, v, 0, max));
    }
    if Correct(d, v, max) {
      var k :| 0 <= k <= max && CorrectIn(d, v, k);
      assert Holds(d.inv, LoopState(d, v, 0));
      WalkComplete(d, v, 0, k, max);
    }
  }

  lemma {:induction false} FirstFailMeaning(ob: Obligation, d: Derivation, vs: seq<Row>, max: nat)
    requires RowsFit(d, vs)
    ensures FirstFail(ob, d, vs, max) == None <==> forall i | 0 <= i < |vs| :: FailAt(ob, d, vs[i], max) == None
    ensures FirstFail(ob, d, vs, max).Some? ==>
      exists i | 0 <= i < |vs| ::
        && FirstFail(ob, d, vs, max) == FailAt(ob, d, vs[i], max)
        && forall j | 0 <= j < i :: FailAt(ob, d, vs[j], max) == None
    decreases |vs|
  {
    if vs != [] {
      var n := |vs| - 1;
      FirstFailMeaning(ob, d, vs[..n], max);
      if FirstFail(ob, d, vs[..n], max).Some? {
        var i :| 0 <= i < n
          && FirstFail(ob, d, vs[..n], max) == FailAt(ob, d, vs[..n][i], max)
          && forall j | 0 <= j < i :: FailAt(ob, d, vs[..n][j], max) == None;
        assert forall j | 0 <= j < i :: vs[..n][j] == vs[j];
        assert vs[..n][i] == vs[i];
      } else {
        assert forall j | 0 <= j < n :: vs[..n][j] == vs[j];
      }
    }
  }

  /** `ok` holds exactly when every enumerated input's loop is correct. */
  lemma VerdictMeaning(d: Derivation, threshold: nat, max: nat)
    ensures RowsFit(d, Valuations(d.Sizes(), threshold))
    ensures Discharge(d, threshold, max).ok <==>
      forall v | v in Valuations(d.Sizes(), threshold) :: |v| == |d.inputs| && Correct(d, v, max)
  {
    ValuationsFit(d, threshold);
    var vs := Valuations(d.Sizes(), threshold);
    FirstFailMeaning(O1, d, vs, max);
    FirstFailMeaning(O2, d, vs, max);
    FirstFailMeaning(O3, d, vs, max);
    forall i | 0 <= i < |vs|
      ensures (FailAt(O1, d, vs[i], max) == None && FailAt(O2, d, vs[i], max) == None
                && FailAt(O3, d, vs[i], max) == None) <==> Correct(d, vs[i], max)
    {
      SweepsMeanCorrect(d, vs[i], max);
    }
    if Discharge(d, threshold, max).ok {
      forall v | v in vs
        ensures |v| == |d.inputs| && Correct(d, v, max)
      {
        var i :| 0 <= i < |vs| && vs[i] == v;
      }
    }
    if forall v | v in vs :: |v| == |d.inputs| && Correct(d, v, max) {
      assert forall i | 0 <= i < |vs| :: vs[i] in vs;
    }
  }

  lemma ExhaustiveValuations(sizes: seq<nat>, threshold: nat)
    requires AllPositive(sizes) && ModeOf(sizes, threshold) == ExhaustiveProof
    ensures |Valuations(sizes, threshold)| == Total(sizes)
    ensures forall v :: v in Valuations(sizes, threshold) <==> InBox(v, sizes)
  {
    ProductLength(sizes);
    forall v
      ensures v in Product(sizes) <==> InBox(v, sizes)
    {
      ProductHas(sizes, v);
    }
  }

  /** In exhaustive mode `ok` is a proof over the whole input box, and the box is what was counted. */
  lemma ExhaustiveIsProof(d: Derivation, threshold: nat, max: nat)
    requires Discharge(d, threshold, max).mode == ExhaustiveProof
    ensures Discharge(d, threshold, max).cases == Total(d.Sizes())
    ensures Discharge(d, threshold, max).ok <==>
      forall v | InBox(v, d.Sizes()) :: Correct(d, v, max)
  {
    VerdictMeaning(d, threshold, max);
    ExhaustiveValuations(d.Sizes(), threshold);
  }

  /** A negative verdict names an enumerated input, and no earlier input fails the same sweep. */
  lemma CounterExampleIsFirst(d: Derivation, threshold: nat, max: nat)
    requires !Discharge(d, threshold, max).ok
    ensures var r := Discharge(d, threshold, max);
      var vs := Valuations(d.Sizes(), threshold);
      && RowsFit(d, vs)
      && r.cex.Some?
      && r.cex.value.obligation == (if !r.o1 then O1 else if !r.o2 then O2 else O3)
      && exists i | 0 <= i < |vs| ::
          && r.cex.value.inputs == vs[i]
          && !Correct(d, vs[i], max)
          && forall j | 0 <= j < i :: FailAt(r.cex.value.obligation, d, vs[j], max) == None
  {
    ValuationsFit(d, threshold);
    var r := Discharge(d, threshold, max);
    var vs := Valuations(d.Sizes(), threshold);
    var ob := if !r.o1 then O1 else if !r.o2 then O2 else O3;
    FirstFailMeaning(ob, d, vs, max);
    var i :| 0 <= i < |vs|
      && FirstFail(ob, d, vs, max) == FailAt(ob, d, vs[i], max)
      && forall j | 0 <= j < i :: FailAt(ob, d, vs[j], max) == None;
    FailureNames(ob, d, vs[i], max);
    SweepsMeanCorrect(d, vs[i], max);
  }

  lemma FailureNames(ob: Obligation, d: Derivation, v: Row, max: nat)
    requires |v| == |d.inputs|
    ensures FailAt(ob, d, v, max).Some? ==>
      FailAt(ob, d, v, max).value.obligation == ob && FailAt(ob, d, v, max).value.inputs == v
  {
    if ob == O2 {
      O2FromNames(d, v, 0, max);
    }
  }

  lemma {:induction false} O2FromNames(d: Derivation, v: Row, k: nat, max: nat)
    requires |v| == |d.inputs| && k <= max
    ensures O2From(d, v, k, max).Some? ==>
      O2From(d, v, k, max).value.obligation == O2 && O2From(d, v, k, max).value.inputs == v
    decreases max - k
  {
    if k < max {
      O2FromNames(d, v, k + 1, max);
    }
  }

  /** A loop that iterates runs at most as often as its variant is large at entry. */
  lemma VariantBoundsRuns(d: Derivation, v: Row, k: nat)
    requires |v| == |d.inputs| && CorrectIn(d, v, k) && k > 0
    ensures Eval(d.variant, Entry(d, v)).V? && k <= Eval(d.variant, Entry(d, v)).n
  {
    assert VariantFalls(d, v, 0);
    VariantLeft(d, v, 0, k);
  }

  lemma {:induction false} VariantLeft(d: Derivation, v: Row, j: nat, k: nat)
    requires |v| == |d.inputs| && CorrectIn(d, v, k) && j < k
    ensures Eval(d.variant, LoopState(d, v, j)).V? && k - j <= Eval(d.variant, LoopState(d, v, j)).n
    decreases k - j
  {
    assert VariantFalls(d, v, j);
    if j + 1 < k {
      VariantLeft(d, v, j + 1, k);
    }
  }

  /** The number of iterations is determined by the input. */
  lemma RunsOnce(d: Derivation, v: Row, k: nat, m: nat)
    requires |v| == |d.inputs| && CorrectIn(d, v, k) && CorrectIn(d, v, m)
    ensures k == m
  {
  }

  // ---------------------------------------------------------------------------
  // Discharges in which nothing is rejected
  // ---------------------------------------------------------------------------

  /** Every name the kernel ever binds. All of them hold scalars. */
  function Bound(d: Derivation): set<Name> {
    (set k | 0 <= k < |d.inputs| :: d.inputs[k].0) + Targets(d.init) + Targets(d.body) + Targets(d.mapping)
  }

  predicate UnboundAll(us: Updates, bound: set<Name>) {
    forall k | 0 <= k < |us| :: Bases(us[k].1) !! bound
  }

  /** The kernel binds no memory: a name that is indexed is not bound at all. */
  predicate BindsNoIndexed(d: Derivation) {
    var bound := Bound(d);
    && Bases(d.post) !! bound && Bases(d.inv) !! bound && Bases(d.variant) !! bound && Bases(d.guard) !! bound
    && UnboundAll(d.init, bound) && UnboundAll(d.body, bound) && UnboundAll(d.mapping, bound)
  }

  lemma {:induction false} LandKeys(base: Env, pre: Env, us: Updates)
    ensures Land(base, pre, us).Keys == base.Keys + Targets(us)
    decreases us
  {
    if us != [] {
      LandKeys(base[us[0].0 := Scalar(Eval(us[0].1, pre))], pre, us[1..]);
      TargetsStep(us);
    }
  }

  lemma TargetsStep(us: Updates)
    requires us != []
    ensures Targets(us) == {us[0].0} + Targets(us[1..])
  {
    forall x | x in Targets(us)
      ensures x in {us[0].0} + Targets(us[1..])
    {
      var k :| 0 <= k < |us| && us[k].0 == x;
      if k > 0 {
        assert us[1..][k - 1].0 == x;
      }
    }
    forall x | x in Targets(us[1..])
      ensures x in Targets(us)
    {
      var k :| 0 <= k < |us[1..]| && us[1..][k].0 == x;
      assert us[k + 1].0 == x;
    }
  }

  lemma {:induction false} SequentialKeys(env: Env, us: Updates)
    ensures Sequential(env, us).Keys == env.Keys + Targets(us)
    decreases us
  {
    if us != [] {
      SequentialKeys(env[us[0].0 := Scalar(Eval(us[0].1, env))], us[1..]);
      TargetsStep(us);
    }
  }

  lemma {:induction false} InputKeys(inputs: seq<(Name, nat)>, v: Row)
    requires |v| == |inputs|
    ensures InputEnv(inputs, v).Keys == set k | 0 <= k < |inputs| :: inputs[k].0
    decreases |inputs|
  {
    if inputs != [] {
      var n := |inputs| - 1;
      InputKeys(inputs[..n], v[..n]);
    }
  }

  lemma {:induction false} LoopKeys(d: Derivation, v: Row, k: nat)
    requires |v| == |d.inputs|
    ensures LoopState(d, v, k).Keys <= Bound(d)
  {
    if k == 0 {
      InputKeys(d.inputs, v);
      SequentialKeys(InputEnv(d.inputs, v), d.init);
    } else {
      LoopKeys(d, v, k - 1);
      LandKeys(LoopState(d, v, k - 1), LoopState(d, v, k - 1), d.body);
    }
  }

  /** While the `k`-th initial assignment is evaluated, only inputs and earlier targets are bound. */
  lemma InitKeys(d: Derivation, v: Row, k: nat)
    requires |v| == |d.inputs| && k <= |d.init|
    ensures Sequential(InputEnv(d.inputs, v), d.init[..k]).Keys <= Bound(d)
  {
    InputKeys(d.inputs, v);
    SequentialKeys(InputEnv(d.inputs, v), d.init[..k]);
  }

  lemma UnboundNeverRaises(d: Derivation, env: Env, e: Expr)
    requires env.Keys <= Bound(d) && Bases(e) !! Bound(d)
    ensures !Raises(e, env)
  {
    ScalarFreeNeverRaises(e, env);
  }

  ghost predicate NoneRaises(us: Updates, env: Env) {
    forall k | 0 <= k < |us| :: !Raises(us[k].1, env)
  }

  lemma NoUpdateRaises(d: Derivation, env: Env, us: Updates)
    requires env.Keys <= Bound(d) && UnboundAll(us, Bound(d))
    ensures NoneRaises(us, env)
  {
    forall k | 0 <= k < |us|
      ensures !Raises(us[k].1, env)
    {
      UnboundNeverRaises(d, env, us[k].1);
    }
  }

  /** Of a derivation that indexes no bound name, no sweep rejects anything in any state it reaches. */
  lemma DischargeNeverRaises(d: Derivation, v: Row, k: nat)
    requires BindsNoIndexed(d) && |v| == |d.inputs|
    ensures forall i | 0 <= i < |d.init| :: !Raises(d.init[i].1, Sequential(InputEnv(d.inputs, v), d.init[..i]))
    ensures var s := LoopState(d, v, k);
      !Raises(d.inv, s) && !Raises(d.variant, s) && !Raises(d.guard, s) && NoneRaises(d.body, s) && NoneRaises(d.mapping, s)
    ensures !Raises(d.post, ExitBinding(d, v, k))
  {
    forall i | 0 <= i < |d.init|
      ensures !Raises(d.init[i].1, Sequential(InputEnv(d.inputs, v), d.init[..i]))
    {
      InitKeys(d, v, i);
      UnboundNeverRaises(d, Sequential(InputEnv(d.inputs, v), d.init[..i]), d.init[i].1);
    }
    var s := LoopState(d, v, k);
    LoopKeys(d, v, k);
    UnboundNeverRaises(d, s, d.inv);
    UnboundNeverRaises(d, s, d.variant);
    UnboundNeverRaises(d, s, d.guard);
    NoUpdateRaises(d, s, d.body);
    NoUpdateRaises(d, s, d.mapping);
    LandKeys(s, s, d.mapping);
    UnboundNeverRaises(d, ExitBinding(d, v, k), d.post);
  }
}
