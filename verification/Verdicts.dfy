/**
  What a verdict of the obligation kernel says, in terms of the loop alone: `ok` is a statement
  about every enumerated input, and a negative verdict carries a state that explains itself.
  */
module Verdicts {
  import opened Expressions
  import opened Domain
  import opened Kernel

  /** The expression has the value 1. */
  predicate True(e: Expr, s: Env) {
    Eval(e, s) == V(1)
  }

  /** The loop of input `v` takes `k` steps without leaving its guard, its invariant holding all along. */
  ghost predicate Walked(d: Derivation, v: Row, k: nat)
    requires |v| == |d.inputs|
  {
    && (forall j | 0 <= j < k :: True(d.guard, LoopState(d, v, j)))
    && forall j | 0 <= j <= k :: True(d.inv, LoopState(d, v, j))
  }

  /** The `j`-th step takes the variant to a smaller number. */
  predicate Shrinks(d: Derivation, v: Row, j: nat)
    requires |v| == |d.inputs|
  {
    match (Eval(d.variant, LoopState(d, v, j)), Eval(d.variant, LoopState(d, v, j + 1)))
    case (V(a), V(b)) => b < a
    case _ => false
  }

  /** The loop of input `v` ends after `k` steps, its invariant, variant and postcondition as claimed. */
  ghost predicate EndsWell(d: Derivation, v: Row, k: nat)
    requires |v| == |d.inputs|
  {
    && Walked(d, v, k) && !True(d.guard, LoopState(d, v, k))
    && (forall j | 0 <= j < k :: Shrinks(d, v, j))
    && True(d.post, Simultaneous(LoopState(d, v, k), d.mapping))
  }

  lemma EndsWellIff(d: Derivation, v: Row, k: nat)
    requires |v| == |d.inputs|
    ensures EndsWell(d, v, k) <==> CorrectIn(d, v, k)
  {
    assert forall j | 0 <= j < k :: VariantFalls(d, v, j) <==> Shrinks(d, v, j);
  }

  /** `ok` says of every enumerated input that its loop ends well within the bound. */
  lemma OkMeans(d: Derivation, threshold: nat, max: nat)
    ensures Discharge(d, threshold, max).ok <==>
      forall v | v in Valuations(d.Sizes(), threshold) ::
        |v| == |d.inputs| && exists k :: 0 <= k <= max && EndsWell(d, v, k)
  {
    VerdictMeaning(d, threshold, max);
    forall v | v in Valuations(d.Sizes(), threshold) && |v| == |d.inputs|
      ensures Correct(d, v, max) <==> exists k :: 0 <= k <= max && EndsWell(d, v, k)
    {
      forall k: nat
        ensures EndsWell(d, v, k) <==> CorrectIn(d, v, k)
      {
        EndsWellIff(d, v, k);
      }
      if Correct(d, v, max) {
        var k :| 0 <= k <= max && CorrectIn(d, v, k);
        assert EndsWell(d, v, k);
      }
    }
  }

  /** The step from `s` breaks the invariant. */
  predicate StepBreaks(d: Derivation, s: Env) {
    True(d.guard, s) && True(d.inv, s) && !True(d.inv, Simultaneous(s, d.body))
  }

  /** In the step from `s` the variant goes from `a` to `b` without falling. */
  predicate StepStalls(d: Derivation, s: Env, a: Value, b: Value) {
    && True(d.guard, s) && True(d.inv, s) && True(d.inv, Simultaneous(s, d.body))
    && Eval(d.variant, s) == a && Eval(d.variant, Simultaneous(s, d.body)) == b
    && (a.X? || b.X? || a.n <= b.n)
  }

  /** What each detail claims about the state it comes with. */
  ghost predicate Explains(d: Derivation, c: CounterExample, max: nat)
    requires |c.inputs| == |d.inputs|
  {
    var entry := Sequential(InputEnv(d.inputs, c.inputs), d.init);
    match c.detail
    case InvariantFailsAfterInit => c.obligation == O1 && c.state == entry && !True(d.inv, entry)
    case InvariantFailsAtEntry => c.obligation == O2 && c.state == entry && !True(d.inv, entry)
    case BodyBreaksInvariant =>
      c.obligation == O2 && StepBreaks(d, c.state) &&
      exists k :: 0 <= k < max && Walked(d, c.inputs, k) && c.state == LoopState(d, c.inputs, k)
    case VariantNotDecreasing(a, b) =>
      c.obligation == O2 && StepStalls(d, c.state, a, b) &&
      exists k :: 0 <= k < max && Walked(d, c.inputs, k) && c.state == LoopState(d, c.inputs, k)
    case GuardStillHolds(n) =>
      c.obligation == O2 && n == max && Walked(d, c.inputs, max) &&
      c.state == LoopState(d, c.inputs, max) && True(d.guard, c.state)
    case PostFails =>
      c.obligation == O3 && !True(d.post, c.state) &&
      exists k :: 0 <= k <= max && c.state == Simultaneous(LoopState(d, c.inputs, k), d.mapping) && Left(d, c.inputs, k, max)
  }

  /** The bounded walk leaves the loop after `k` steps. */
  ghost predicate Left(d: Derivation, v: Row, k: nat, max: nat)
    requires |v| == |d.inputs|
  {
    (forall j | 0 <= j < k :: True(d.guard, LoopState(d, v, j))) && (k == max || !True(d.guard, LoopState(d, v, k)))
  }

  lemma {:induction false} WalkExplains(d: Derivation, v: Row, k: nat, max: nat)
    requires |v| == |d.inputs| && k <= max && Walked(d, v, k) && O2From(d, v, k, max).Some?
    ensures O2From(d, v, k, max).value.inputs == v && Explains(d, O2From(d, v, k, max).value, max)
    ensures O2From(d, v, k, max).value.obligation == O2 && O2From(d, v, k, max).value.detail != InvariantFailsAtEntry
    decreases max - k
  {
    var s := LoopState(d, v, k);
    if k < max && True(d.guard, s) && True(d.inv, LoopState(d, v, k + 1)) {
      if Decreases(Eval(d.variant, s), Eval(d.variant, LoopState(d, v, k + 1))) {
        WalkExplains(d, v, k + 1, max);
      }
    }
  }

  lemma {:induction false} StopLeaves(d: Derivation, v: Row, k: nat, max: nat)
    requires |v| == |d.inputs| && k <= max && forall j | 0 <= j < k :: True(d.guard, LoopState(d, v, j))
    ensures k <= Stop(d, v, k, max) <= max && Left(d, v, Stop(d, v, k, max), max)
    decreases max - k
  {
    if k < max && True(d.guard, LoopState(d, v, k)) {
      StopLeaves(d, v, k + 1, max);
    }
  }

  /** Whatever a sweep reports for an input explains itself. */
  lemma FailureExplains(ob: Obligation, d: Derivation, v: Row, max: nat)
    requires |v| == |d.inputs| && FailAt(ob, d, v, max).Some?
    ensures var c := FailAt(ob, d, v, max).value;
      c.obligation == ob && c.inputs == v && Explains(d, c, max)
    ensures FailAt(O1, d, v, max).None? ==> FailAt(ob, d, v, max).value.detail != InvariantFailsAtEntry
  {
    match ob
    case O1 =>
    case O2 =>
      if True(d.inv, LoopState(d, v, 0)) {
        WalkExplains(d, v, 0, max);
      }
    case O3 =>
      StopLeaves(d, v, 0, max);
  }

  /**
    A negative verdict explains itself: its counterexample is of an enumerated input, shows the state
    its detail speaks of, and the flags say which sweep it ended in. The first sweep leaves nothing
    for the second to report at an entry.
    */
  lemma NegativeExplains(d: Derivation, threshold: nat, max: nat)
    requires !Discharge(d, threshold, max).ok
    ensures var r := Discharge(d, threshold, max);
      && r.cex.Some? && |r.cex.value.inputs| == |d.inputs| && r.cex.value.inputs in Valuations(d.Sizes(), threshold)
      && Explains(d, r.cex.value, max) && r.cex.value.detail != InvariantFailsAtEntry
      && (r.o1 <==> r.cex.value.obligation != O1) && (r.o2 <==> r.cex.value.obligation == O3) && !r.o3
  {
    ValuationsFit(d, threshold);
    var r, vs := Discharge(d, threshold, max), Valuations(d.Sizes(), threshold);
    var ob := if !r.o1 then O1 else if !r.o2 then O2 else O3;
    FirstFailMeaning(O1, d, vs, max);
    FirstFailMeaning(ob, d, vs, max);
    var i :| 0 <= i < |vs| && FirstFail(ob, d, vs, max) == FailAt(ob, d, vs[i], max);
    FailureExplains(ob, d, vs[i], max);
  }

  /** Every verdict names its mode and counts its inputs; a positive one has no counterexample. */
  lemma VerdictCounts(d: Derivation, threshold: nat, max: nat)
    ensures var r := Discharge(d, threshold, max);
      && r.cases == |Valuations(d.Sizes(), threshold)|
      && (r.mode == ExhaustiveProof <==> Total(d.Sizes()) <= threshold)
      && (r.ok ==> r.o1 && r.o2 && r.o3 && r.cex == None)
      && (r.ok <==> r.cex == None)
  {
  }
}
