/**
  Guarded actions and their left-hand sides, and ordered steps composed into one next-state
  expression per left-hand side. Proved: composed steps compute what carrying out the taken
  assignments one after another computes, and exactly when that is what running the steps as a
  program would compute.
  */
module Composition {
  import opened Expressions
  import opened Simulator

  /** `TRUE`, or a condition. */
  datatype Guard = Always | When(e: Expr)

  type Assigns = seq<(Lhs, Expr)>

  /** A branch of an alternation, a step of a sequential composition, or a clocked action. */
  datatype Action = Action(guard: Guard, updates: Assigns)

  /** The old value of a left-hand side, as an expression. */
  function Held(l: Lhs): Expr {
    match l case Reg(x) => Var(x) case Elem(b, i) => Index(b, i)
  }

  function Condition(g: Guard): Expr {
    match g case Always => Const(1) case When(e) => e
  }

  predicate Ready(g: Guard, env: Env) {
    g.Always? || Fires(g.e, env)
  }

  predicate Decided(g: Guard, env: Env) {
    Eval(Condition(g), env).V?
  }

  // ---------------------------------------------------------------------------
  // Left-hand sides in the order they are first assigned
  // ---------------------------------------------------------------------------

  function AllUpdates(actions: seq<Action>): Assigns {
    if actions == [] then [] else AllUpdates(actions[..|actions| - 1]) + actions[|actions| - 1].updates
  }

  ghost predicate Assigned(us: Assigns, l: Lhs) {
    exists k | 0 <= k < |us| :: us[k].0 == l
  }

  lemma AssignedStep(us: Assigns, l: Lhs)
    requires us != []
    ensures Assigned(us, l) <==> Assigned(us[..|us| - 1], l) || us[|us| - 1].0 == l
  {
    if Assigned(us, l) && us[|us| - 1].0 != l {
      var k :| 0 <= k < |us| && us[k].0 == l;
      assert us[..|us| - 1][k].0 == l;
    }
  }

  /** The left-hand sides of `us`, each once. */
  function FirstSeen(us: Assigns): (order: seq<Lhs>)
    ensures forall l :: l in order <==> Assigned(us, l)
    ensures forall i, j | 0 <= i < j < |order| :: order[i] != order[j]
  {
    if us == [] then []
    else
      var n := |us| - 1;
      var order := FirstSeen(us[..n]);
      assert forall l :: Assigned(us, l) <==> Assigned(us[..n], l) || us[n].0 == l by {
        forall l
          ensures Assigned(us, l) <==> Assigned(us[..n], l) || us[n].0 == l
        {
          AssignedStep(us, l);
        }
      }
      if us[n].0 in order then order else order + [us[n].0]
  }

  /** The first assignment of a left-hand side. */
  function FirstAt(us: Assigns, l: Lhs): (k: nat)
    requires l in FirstSeen(us)
    ensures k < |us| && us[k].0 == l
    ensures forall i | 0 <= i < k :: us[i].0 != l
    decreases us
  {
    if us[0].0 == l then 0 else
      assert l in FirstSeen(us[1..]) by {
        var k :| 0 <= k < |us| && us[k].0 == l;
        assert us[1..][k - 1].0 == l;
      }
      1 + FirstAt(us[1..], l)
  }

  /** The listing is by first assignment. */
  lemma {:induction false} FirstSeenOrder(us: Assigns, i: nat, j: nat)
    requires i < j < |FirstSeen(us)|
    ensures FirstSeen(us)[i] in FirstSeen(us) && FirstSeen(us)[j] in FirstSeen(us)
    ensures FirstAt(us, FirstSeen(us)[i]) < FirstAt(us, FirstSeen(us)[j])
    decreases |us|
  {
    var n := |us| - 1;
    var order, before := FirstSeen(us), FirstSeen(us[..n]);
    if j < |before| {
      FirstSeenOrder(us[..n], i, j);
      FirstAtPrefix(us, n, order[i]);
      FirstAtPrefix(us, n, order[j]);
    } else {
      FirstAtPrefix(us, n, order[i]);
    }
  }

  lemma FirstAtPrefix(us: Assigns, n: nat, l: Lhs)
    requires n <= |us| && l in FirstSeen(us[..n])
    ensures l in FirstSeen(us) && FirstAt(us, l) == FirstAt(us[..n], l)
  {
    var k := FirstAt(us[..n], l);
    assert us[k].0 == l;
    var m := FirstAt(us, l);
    assert forall i | 0 <= i < n :: us[..n][i] == us[i];
  }

  lemma AppendTake<T>(a: seq<T>, b: seq<T>, k: nat)
    requires k < |b|
    ensures a + b[..k] + [b[k]] == a + b[..k + 1]
  {
  }

  lemma FirstSeenNext(us: Assigns, u: (Lhs, Expr))
    ensures FirstSeen(us + [u]) == if u.0 in FirstSeen(us) then FirstSeen(us) else FirstSeen(us) + [u.0]
  {
    assert (us + [u])[..|us|] == us;
  }

  /** `_ordered_assigned_vars` */
  method OrderedAssignedVars(groups: seq<Action>) returns (order: seq<Lhs>)
    ensures order == FirstSeen(AllUpdates(groups))
  {
    order := [];
    var seen: set<Lhs> := {};
    for g := 0 to |groups|
      invariant order == FirstSeen(AllUpdates(groups[..g]))
      invariant forall l :: l in seen <==> l in order
    {
      var us := groups[g].updates;
      ghost var before := AllUpdates(groups[..g]);
      assert before + us[..0] == before;
      for k := 0 to |us|
        invariant order == FirstSeen(before + us[..k])
        invariant forall l :: l in seen <==> l in order
      {
        FirstSeenNext(before + us[..k], us[k]);
        AppendTake(before, us, k);
        if us[k].0 !in seen {
          seen := seen + {us[k].0};
          order := order + [us[k].0];
        }
      }
      assert us[..|us|] == us;
      assert groups[..g + 1][..g] == groups[..g];
    }
    assert groups[..|groups|] == groups;
  }

  // ---------------------------------------------------------------------------
  // Ordered steps within one cycle
  // ---------------------------------------------------------------------------

  /** One assignment of one step, with the guard of its step. */
  datatype Micro = Micro(guard: Guard, lhs: Lhs, rhs: Expr)

  function MicrosOf(a: Action): (ms: seq<Micro>)
    ensures |ms| == |a.updates|
  {
    seq(|a.updates|, k requires 0 <= k < |a.updates| => Micro(a.guard, a.updates[k].0, a.updates[k].1))
  }

  function Micros(steps: seq<Action>): seq<Micro> {
    if steps == [] then [] else Micros(steps[..|steps| - 1]) + MicrosOf(steps[|steps| - 1])
  }

  /** The registers among the forwarded values; a memory cell is never forwarded. */
  function Scalars(running: map<Lhs, Expr>): map<Name, Expr> {
    map l | l in running && l.Reg? :: l.x := running[l]
  }

  /** The symbolic value of one more assignment. */
  function Forwarded(running: map<Lhs, Expr>, m: Micro): Expr {
    var e := Subst(m.rhs, Scalars(running));
    match m.guard
    case Always => e
    case When(g) => Ite(g, e, if m.lhs in running then running[m.lhs] else Held(m.lhs))
  }

  /** The `running` dictionary after some assignments. */
  function Forward(ms: seq<Micro>): map<Lhs, Expr> {
    if ms == [] then map[]
    else
      var running := Forward(ms[..|ms| - 1]);
      running[ms[|ms| - 1].lhs := Forwarded(running, ms[|ms| - 1])]
  }

  lemma ForwardNext(ms: seq<Micro>, m: Micro)
    ensures Forward(ms + [m]) == Forward(ms)[m.lhs := Forwarded(Forward(ms), m)]
  {
    assert (ms + [m])[..|ms|] == ms;
  }

  ghost predicate Touches(ms: seq<Micro>, l: Lhs) {
    exists k | 0 <= k < |ms| :: ms[k].lhs == l
  }

  lemma TouchesStep(ms: seq<Micro>, l: Lhs)
    requires ms != []
    ensures Touches(ms, l) <==> Touches(ms[..|ms| - 1], l) || ms[|ms| - 1].lhs == l
  {
    if Touches(ms, l) && ms[|ms| - 1].lhs != l {
      var k :| 0 <= k < |ms| && ms[k].lhs == l;
      assert ms[..|ms| - 1][k].lhs == l;
    }
  }

  lemma {:induction false} ForwardKeys(ms: seq<Micro>, l: Lhs)
    ensures l in Forward(ms) <==> Touches(ms, l)
    decreases |ms|
  {
    if ms != [] {
      ForwardKeys(ms[..|ms| - 1], l);
      TouchesStep(ms, l);
    }
  }

  lemma MicroTargets(steps: seq<Action>, l: Lhs)
    ensures l in FirstSeen(AllUpdates(steps)) <==> Touches(Micros(steps), l)
  {
    SameTargets(steps);
    var us, ms := AllUpdates(steps), Micros(steps);
    if l in FirstSeen(us) {
      var k :| 0 <= k < |us| && us[k].0 == l;
      assert ms[k].lhs == l;
    }
    if Touches(ms, l) {
      var k :| 0 <= k < |ms| && ms[k].lhs == l;
      assert us[k].0 == l;
    }
  }

  lemma {:induction false} SameTargets(steps: seq<Action>)
    ensures |Micros(steps)| == |AllUpdates(steps)|
    ensures forall k | 0 <= k < |Micros(steps)| :: Micros(steps)[k].lhs == AllUpdates(steps)[k].0
    decreases |steps|
  {
    if steps != [] {
      SameTargets(steps[..|steps| - 1]);
    }
  }

  /** The assignments of one step, each seeing the earlier ones through `running`. */
  method ForwardStep(ghost before: seq<Micro>, running: map<Lhs, Expr>, step: Action) returns (after: map<Lhs, Expr>)
    requires running == Forward(before)
    ensures after == Forward(before + MicrosOf(step))
  {
    var us := step.updates;
    ghost var these := MicrosOf(step);
    after := running;
    assert before + these[..0] == before;
    for k := 0 to |us|
      invariant after == Forward(before + these[..k])
    {
      var (l, e) := us[k];
      ForwardNext(before + these[..k], these[k]);
      AppendTake(before, these, k);
      var newExpr := Subst(e, Scalars(after));
      var prior := if l in after then after[l] else Held(l);
      after := after[l := match step.guard case Always => newExpr case When(g) => Ite(g, newExpr, prior)];
    }
    assert these[..|us|] == these;
  }

  /** The `running` dictionary after all steps. */
  method ForwardAll(steps: seq<Action>) returns (running: map<Lhs, Expr>)
    ensures running == Forward(Micros(steps))
  {
    running := map[];
    for i := 0 to |steps|
      invariant running == Forward(Micros(steps[..i]))
    {
      running := ForwardStep(Micros(steps[..i]), running, steps[i]);
      assert steps[..i + 1][..i] == steps[..i];
    }
    assert steps[..|steps|] == steps;
  }

  /** `_sequential_exprs` */
  method SequentialExprs(steps: seq<Action>) returns (r: Assigns)
    ensures |r| == |FirstSeen(AllUpdates(steps))|
    ensures forall k | 0 <= k < |r| ::
      && r[k].0 == FirstSeen(AllUpdates(steps))[k]
      && r[k].0 in Forward(Micros(steps)) && r[k].1 == Forward(Micros(steps))[r[k].0]
  {
    var order := OrderedAssignedVars(steps);
    var running := ForwardAll(steps);
    r := [];
    for k := 0 to |order|
      invariant |r| == k
      invariant forall i | 0 <= i < k :: r[i].0 == order[i] && r[i].0 in running && r[i].1 == running[r[i].0]
    {
      MicroTargets(steps, order[k]);
      ForwardKeys(Micros(steps), order[k]);
      r := r + [(order[k], running[order[k]])];
    }
  }

  /** What carrying out assignments one by one has produced so far: registers at once, cells pending. */
  datatype Work = Work(env: Env, cells: map<Lhs, Value>)

  function Current(pre: Env, w: Work, l: Lhs): Value {
    match l
    case Reg(x) => Lookup(w.env, x)
    case Elem(_, _) => if l in w.cells then w.cells[l] else Eval(Held(l), pre)
  }

  /** One assignment, its guard read in the state before the cycle. */
  function Execute(pre: Env, w: Work, m: Micro): Work {
    var v := Choose(Eval(Condition(m.guard), pre), Eval(m.rhs, w.env), Current(pre, w, m.lhs));
    match m.lhs
    case Reg(x) => w.(env := w.env[x := Scalar(v)])
    case Elem(_, _) => w.(cells := w.cells[m.lhs := v])
  }

  function ExecuteAll(pre: Env, ms: seq<Micro>): Work {
    if ms == [] then Work(pre, map[])
    else Execute(pre, ExecuteAll(pre, ms[..|ms| - 1]), ms[|ms| - 1])
  }

  /** No register that the steps assign is indexed as a memory. */
  ghost predicate RegistersApart(ms: seq<Micro>) {
    forall i, k | 0 <= i < |ms| && 0 <= k < |ms| && ms[k].lhs.Reg? :: ms[k].lhs.x !in Bases(ms[i].rhs)
  }

  ghost predicate Agrees(pre: Env, running: map<Lhs, Expr>, w: Work) {
    && (forall l | l in running :: Eval(running[l], pre) == Current(pre, w, l))
    && (forall l | l in w.cells :: l in running)
    && forall x | Reg(x) !in running :: SameAt(w.env, pre, x)
  }

  ghost predicate RegsAreScalar(running: map<Lhs, Expr>, w: Work) {
    forall x | Reg(x) in running :: CellsOf(w.env, x) == []
  }

  /** Under the substitution an expression sees what the assignments so far have left. */
  lemma SubstSeesWork(pre: Env, running: map<Lhs, Expr>, w: Work, e: Expr)
    requires Agrees(pre, running, w) && RegsAreScalar(running, w)
    requires forall l | l in running && l.Reg? :: l.x !in Bases(e)
    ensures Eval(Subst(e, Scalars(running)), pre) == Eval(e, w.env)
  {
    var subst := Scalars(running);
    var over := Overlay(pre, subst);
    SubstIsUpdate(e, subst, pre);
    forall x | x in Reads(e)
      ensures SameAt(over, w.env, x)
    {
      if Reg(x) in running {
        assert x in subst && subst[x] == running[Reg(x)];
        assert Eval(running[Reg(x)], pre) == Current(pre, w, Reg(x));
      }
    }
    EvalSees(e, over, w.env);
  }

  /** What a left-hand side held before, as the running dictionary keeps it. */
  lemma PriorAgrees(pre: Env, running: map<Lhs, Expr>, w: Work, l: Lhs)
    requires Agrees(pre, running, w)
    ensures Eval(if l in running then running[l] else Held(l), pre) == Current(pre, w, l)
  {
  }

  lemma ForwardedAgrees(pre: Env, running: map<Lhs, Expr>, w: Work, m: Micro)
    requires Agrees(pre, running, w) && RegsAreScalar(running, w)
    requires forall l | l in running && l.Reg? :: l.x !in Bases(m.rhs)
    ensures Eval(Forwarded(running, m), pre) == Current(pre, Execute(pre, w, m), m.lhs)
  {
    SubstSeesWork(pre, running, w, m.rhs);
    PriorAgrees(pre, running, w, m.lhs);
  }

  lemma OthersKept(pre: Env, w: Work, m: Micro, l: Lhs)
    requires l != m.lhs
    ensures Current(pre, Execute(pre, w, m), l) == Current(pre, w, l)
  {
  }

  lemma StepAgrees(pre: Env, running: map<Lhs, Expr>, w: Work, m: Micro)
    requires Agrees(pre, running, w) && RegsAreScalar(running, w)
    requires forall l | l in running && l.Reg? :: l.x !in Bases(m.rhs)
    ensures Agrees(pre, running[m.lhs := Forwarded(running, m)], Execute(pre, w, m))
  {
    ForwardedAgrees(pre, running, w, m);
    var after := running[m.lhs := Forwarded(running, m)];
    var w' := Execute(pre, w, m);
    forall l | l in after
      ensures Eval(after[l], pre) == Current(pre, w', l)
    {
      if l != m.lhs {
        assert l in running && Eval(running[l], pre) == Current(pre, w, l);
        OthersKept(pre, w, m, l);
      }
    }
  }

  lemma StepScalar(pre: Env, running: map<Lhs, Expr>, w: Work, m: Micro)
    requires RegsAreScalar(running, w)
    ensures RegsAreScalar(running[m.lhs := Forwarded(running, m)], Execute(pre, w, m))
  {
  }

  lemma {:induction false} ForwardAgrees(pre: Env, ms: seq<Micro>)
    requires RegistersApart(ms)
    ensures Agrees(pre, Forward(ms), ExecuteAll(pre, ms))
    ensures RegsAreScalar(Forward(ms), ExecuteAll(pre, ms))
    decreases |ms|
  {
    if ms != [] {
      var n := |ms| - 1;
      ForwardAgrees(pre, ms[..n]);
      forall l | l in Forward(ms[..n]) && l.Reg?
        ensures l.x !in Bases(ms[n].rhs)
      {
        ForwardKeys(ms[..n], l);
        var k :| 0 <= k < n && ms[..n][k].lhs == l;
        assert ms[k].lhs == l;
      }
      StepAgrees(pre, Forward(ms[..n]), ExecuteAll(pre, ms[..n]), ms[n]);
      StepScalar(pre, Forward(ms[..n]), ExecuteAll(pre, ms[..n]), ms[n]);
    }
  }

  /**
    Substitution theorem: every composed right-hand side, read in the state before the cycle, is
    what carrying out the assignments in order leaves in its left-hand side.
    */
  lemma StepsAreSequential(pre: Env, steps: seq<Action>, l: Lhs)
    requires RegistersApart(Micros(steps)) && l in FirstSeen(AllUpdates(steps))
    ensures l in Forward(Micros(steps))
    ensures Eval(Forward(Micros(steps))[l], pre) == Current(pre, ExecuteAll(pre, Micros(steps)), l)
  {
    MicroTargets(steps, l);
    ForwardKeys(Micros(steps), l);
    ForwardAgrees(pre, Micros(steps));
  }

  /** The assignments whose guards hold before the cycle. */
  function Taken(pre: Env, ms: seq<Micro>): (us: Updates)
    requires forall k | 0 <= k < |ms| :: ms[k].lhs.Reg?
  {
    if ms == [] then []
    else
      var us := Taken(pre, ms[..|ms| - 1]);
      var m := ms[|ms| - 1];
      if Ready(m.guard, pre) then us + [(m.lhs.x, m.rhs)] else us
  }

  lemma {:induction false} SequentialAppend(env: Env, us: Updates, u: (Name, Expr))
    ensures Sequential(env, us + [u]) == Sequential(env, us)[u.0 := Scalar(Eval(u.1, Sequential(env, us)))]
    decreases us
  {
    if us == [] {
      assert ([u] + [])[1..] == [];
      assert us + [u] == [u] && [u][1..] == [];
    } else {
      assert (us + [u])[1..] == us[1..] + [u];
      SequentialAppend(env[us[0].0 := Scalar(Eval(us[0].1, env))], us[1..], u);
    }
  }

  /** With decided guards, carrying out the assignments is running the taken ones as a program. */
  lemma {:induction false} ExecutionIsTaken(pre: Env, ms: seq<Micro>)
    requires forall k | 0 <= k < |ms| :: ms[k].lhs.Reg? && Decided(ms[k].guard, pre) && CellsOf(pre, ms[k].lhs.x) == []
    ensures forall y :: SameAt(ExecuteAll(pre, ms).env, Sequential(pre, Taken(pre, ms)), y)
    ensures forall x | CellsOf(pre, x) == [] :: CellsOf(ExecuteAll(pre, ms).env, x) == []
    decreases |ms|
  {
    if ms != [] {
      var n, m := |ms| - 1, ms[|ms| - 1];
      ExecutionIsTaken(pre, ms[..n]);
      var w, s := ExecuteAll(pre, ms[..n]), Sequential(pre, Taken(pre, ms[..n]));
      EvalSees(m.rhs, w.env, s);
      SequentialAppend(pre, Taken(pre, ms[..n]), (m.lhs.x, m.rhs));
      assert SameAt(w.env, s, m.lhs.x) && CellsOf(w.env, m.lhs.x) == [];
      var w', s' := ExecuteAll(pre, ms).env, Sequential(pre, Taken(pre, ms));
      forall y
        ensures SameAt(w', s', y)
      {
        assert SameAt(w.env, s, y);
      }
    }
  }

  ghost predicate RegisterSteps(pre: Env, ms: seq<Micro>) {
    forall k | 0 <= k < |ms| :: ms[k].lhs.Reg? && Decided(ms[k].guard, pre) && CellsOf(pre, ms[k].lhs.x) == []
  }

  /** What the composition of steps promises: one clock edge has the net effect of the taken steps in order. */
  lemma StepsHaveNetEffect(pre: Env, steps: seq<Action>, x: Name)
    requires RegistersApart(Micros(steps)) && RegisterSteps(pre, Micros(steps))
    requires Reg(x) in FirstSeen(AllUpdates(steps))
    ensures Reg(x) in Forward(Micros(steps))
    ensures Eval(Forward(Micros(steps))[Reg(x)], pre) == Lookup(Sequential(pre, Taken(pre, Micros(steps))), x)
  {
    StepsAreSequential(pre, steps, Reg(x));
    ExecutionIsTaken(pre, Micros(steps));
    assert SameAt(ExecuteAll(pre, Micros(steps)).env, Sequential(pre, Taken(pre, Micros(steps))), x);
  }

  /** The steps as a program whose guards, too, see the assignments before them. */
  function Program(pre: Env, ms: seq<Micro>): Env
    requires forall k | 0 <= k < |ms| :: ms[k].lhs.Reg?
  {
    if ms == [] then pre
    else
      var env := Program(pre, ms[..|ms| - 1]);
      var m := ms[|ms| - 1];
      if Ready(m.guard, env) then env[m.lhs.x := Scalar(Eval(m.rhs, env))] else env
  }

  /** The program and the taken assignments have the same state after the first `j` steps. */
  ghost predicate InStep(pre: Env, ms: seq<Micro>, j: nat)
    requires j <= |ms| && forall k | 0 <= k < |ms| :: ms[k].lhs.Reg?
  {
    Program(pre, ms[..j]) == Sequential(pre, Taken(pre, ms[..j]))
  }

  /** Reading guard `k` early decides it as reading it late does, or its assignment would change nothing. */
  ghost predicate MayWait(pre: Env, ms: seq<Micro>, k: nat)
    requires k < |ms| && forall k | 0 <= k < |ms| :: ms[k].lhs.Reg?
  {
    var env, m := Sequential(pre, Taken(pre, ms[..k])), ms[k];
    Ready(m.guard, env) == Ready(m.guard, pre) || env[m.lhs.x := Scalar(Eval(m.rhs, env))] == env
  }

  lemma ProgramNext(pre: Env, ms: seq<Micro>, k: nat)
    requires k < |ms| && forall k | 0 <= k < |ms| :: ms[k].lhs.Reg?
    ensures var env, m := Program(pre, ms[..k]), ms[k];
      Program(pre, ms[..k + 1]) == if Ready(m.guard, env) then env[m.lhs.x := Scalar(Eval(m.rhs, env))] else env
  {
    assert ms[..k + 1][..k] == ms[..k];
  }

  lemma TakenNext(pre: Env, ms: seq<Micro>, k: nat)
    requires k < |ms| && forall k | 0 <= k < |ms| :: ms[k].lhs.Reg?
    ensures var env, m := Sequential(pre, Taken(pre, ms[..k])), ms[k];
      Sequential(pre, Taken(pre, ms[..k + 1])) ==
      if Ready(m.guard, pre) then env[m.lhs.x := Scalar(Eval(m.rhs, env))] else env
  {
    assert ms[..k + 1][..k] == ms[..k];
    SequentialAppend(pre, Taken(pre, ms[..k]), (ms[k].lhs.x, ms[k].rhs));
  }

  /** One step keeps the two in step exactly when its guard may wait. */
  lemma StepsOnIff(pre: Env, ms: seq<Micro>, k: nat)
    requires k < |ms| && (forall k | 0 <= k < |ms| :: ms[k].lhs.Reg?) && InStep(pre, ms, k)
    ensures InStep(pre, ms, k + 1) <==> MayWait(pre, ms, k)
  {
    ProgramNext(pre, ms, k);
    TakenNext(pre, ms, k);
  }

  lemma {:induction false} InStepUpTo(pre: Env, ms: seq<Micro>, j: nat)
    requires j <= |ms| && forall k | 0 <= k < |ms| :: ms[k].lhs.Reg?
    requires forall k | 0 <= k < j :: MayWait(pre, ms, k)
    ensures InStep(pre, ms, j)
  {
    if j > 0 {
      InStepUpTo(pre, ms, j - 1);
      StepsOnIff(pre, ms, j - 1);
    }
  }

  /** The composed steps run as the program does, step by step, exactly when every guard may wait. */
  lemma GuardsMayWaitIff(pre: Env, ms: seq<Micro>)
    requires forall k | 0 <= k < |ms| :: ms[k].lhs.Reg?
    ensures (forall j | 0 <= j <= |ms| :: InStep(pre, ms, j)) <==> forall k | 0 <= k < |ms| :: MayWait(pre, ms, k)
  {
    if forall j | 0 <= j <= |ms| :: InStep(pre, ms, j) {
      forall k | 0 <= k < |ms|
        ensures MayWait(pre, ms, k)
      {
        assert InStep(pre, ms, k) && InStep(pre, ms, k + 1);
        StepsOnIff(pre, ms, k);
      }
    }
    if forall k | 0 <= k < |ms| :: MayWait(pre, ms, k) {
      forall j | 0 <= j <= |ms|
        ensures InStep(pre, ms, j)
      {
        InStepUpTo(pre, ms, j);
      }
    }
  }

  /** Then one clock edge has the net effect of running the steps as a program, guards included. */
  lemma StepsRunAsProgram(pre: Env, steps: seq<Action>, x: Name)
    requires RegistersApart(Micros(steps)) && RegisterSteps(pre, Micros(steps))
    requires Reg(x) in FirstSeen(AllUpdates(steps))
    requires forall k | 0 <= k < |Micros(steps)| :: MayWait(pre, Micros(steps), k)
    ensures Reg(x) in Forward(Micros(steps))
    ensures Eval(Forward(Micros(steps))[Reg(x)], pre) == Lookup(Program(pre, Micros(steps)), x)
  {
    var ms := Micros(steps);
    StepsHaveNetEffect(pre, steps, x);
    InStepUpTo(pre, ms, |ms|);
    assert ms[..|ms|] == ms;
  }

  ghost predicate GuardsUntouched(ms: seq<Micro>) {
    forall i, k | 0 <= i < |ms| && 0 <= k < |ms| && ms[k].lhs.Reg? ::
      ms[k].lhs.x !in Reads(Condition(ms[i].guard))
  }

  lemma {:induction false} TakenFrame(pre: Env, ms: seq<Micro>, j: nat, y: Name)
    requires j <= |ms| && (forall k | 0 <= k < |ms| :: ms[k].lhs.Reg?) && forall k | 0 <= k < j :: ms[k].lhs.x != y
    ensures SameAt(Sequential(pre, Taken(pre, ms[..j])), pre, y)
  {
    if j > 0 {
      TakenFrame(pre, ms, j - 1, y);
      TakenNext(pre, ms, j - 1);
    }
  }

  /** Guards that read no assigned register may all wait. */
  lemma GuardsMayWait(pre: Env, ms: seq<Micro>)
    requires forall k | 0 <= k < |ms| :: ms[k].lhs.Reg?
    requires GuardsUntouched(ms)
    ensures Program(pre, ms) == Sequential(pre, Taken(pre, ms))
  {
    forall k | 0 <= k < |ms|
      ensures MayWait(pre, ms, k)
    {
      var env, c := Sequential(pre, Taken(pre, ms[..k])), Condition(ms[k].guard);
      forall y | y in Reads(c)
        ensures SameAt(env, pre, y)
      {
        TakenFrame(pre, ms, k, y);
      }
      EvalSees(c, env, pre);
    }
    GuardsMayWaitIff(pre, ms);
    assert InStep(pre, ms, |ms|) && ms[..|ms|] == ms;
  }

  /** `step 1: x := 1; step 2, if x = 1: y := 1` */
  function LateGuard(x: Name, y: Name): seq<Action> {
    [Action(Always, [(Reg(x), Const(1))]), Action(When(Bin(Eq, Var(x), Const(1))), [(Reg(y), Const(1))])]
  }

  function LateMicros(x: Name, y: Name): (ms: seq<Micro>)
    ensures forall k | 0 <= k < |ms| :: ms[k].lhs.Reg?
  {
    [Micro(Always, Reg(x), Const(1)), Micro(When(Bin(Eq, Var(x), Const(1))), Reg(y), Const(1))]
  }

  lemma LateSteps(x: Name, y: Name)
    ensures Micros(LateGuard(x, y)) == LateMicros(x, y)
  {
    var steps := LateGuard(x, y);
    assert steps[..1][..0] == [] && steps[..1] == [steps[0]];
    assert Micros(steps[..1]) == [] + MicrosOf(steps[0]);
  }

  lemma LateForward(x: Name, y: Name)
    requires x != y
    ensures Reg(y) in Forward(LateMicros(x, y))
    ensures Forward(LateMicros(x, y))[Reg(y)] == Ite(Bin(Eq, Var(x), Const(1)), Const(1), Var(y))
  {
    var ms := LateMicros(x, y);
    assert [] + [ms[0]] == [ms[0]] && [ms[0]] + [ms[1]] == ms;
    ForwardNext([], ms[0]);
    ForwardNext([ms[0]], ms[1]);
    assert Reg(y) !in Forward([ms[0]]);
  }

  lemma LateProgram(x: Name, y: Name, pre: Env)
    ensures Lookup(Program(pre, LateMicros(x, y)), y) == V(1)
  {
    var ms := LateMicros(x, y);
    assert ms[..1][..0] == [] && ms[..1] == [ms[0]];
    var env := pre[x := Scalar(V(1))];
    assert Program(pre, []) == pre && Eval(ms[0].rhs, pre) == V(1);
    assert Program(pre, ms[..1]) == env;
    assert Eval(ms[1].guard.e, env) == V(1);
  }

  /** A guard over a register the cycle assigns is decided by its old value: the second step is not taken. */
  lemma GuardsReadTheOldState(x: Name, y: Name, pre: Env)
    requires x != y && Lookup(pre, x) == V(0) == Lookup(pre, y)
    ensures Reg(y) in Forward(Micros(LateGuard(x, y)))
    ensures Eval(Forward(Micros(LateGuard(x, y)))[Reg(y)], pre) == V(0)
    ensures Lookup(Program(pre, LateMicros(x, y)), y) == V(1) && Micros(LateGuard(x, y)) == LateMicros(x, y)
  {
    LateSteps(x, y);
    LateForward(x, y);
    LateProgram(x, y, pre);
    assert Eval(Bin(Eq, Var(x), Const(1)), pre) == V(0);
  }
}
