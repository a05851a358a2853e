/**
  Which assignment a composed next state takes, said of guards and lists of updates alone.
  */
module Winners {
  import opened Expressions
  import opened Simulator
  import opened Composition
  import opened Alternatives

  /** `TRUE`, or a condition with a value other than 0 and X. */
  predicate Open(g: Guard, env: Env) {
    match g case Always => true case When(e) => Eval(e, env).V? && Eval(e, env).n > 0
  }

  /** `TRUE`, or a condition with a value. */
  predicate Known(g: Guard, env: Env) {
    match g case Always => true case When(e) => Eval(e, env).V?
  }

  ghost predicate Lists(us: Assigns, l: Lhs) {
    exists k :: 0 <= k < |us| && us[k].0 == l
  }

  /** The `k`-th update is the first, or the last, of its left-hand side. */
  predicate IsFirst(us: Assigns, l: Lhs, k: nat) {
    k < |us| && us[k].0 == l && forall j | 0 <= j < k :: us[j].0 != l
  }

  predicate IsLast(us: Assigns, l: Lhs, k: nat) {
    k < |us| && us[k].0 == l && forall j | k < j < |us| :: us[j].0 != l
  }

  /** The value of a left-hand side in a state. */
  function ValueOf(l: Lhs, env: Env): Value {
    match l
    case Reg(x) => Lookup(env, x)
    case Elem(b, i) =>
      if Eval(i, env).V? && Eval(i, env).n < |CellsOf(env, b)| then CellsOf(env, b)[Eval(i, env).n] else X
  }

  lemma {:induction false} FirstForIs(us: Assigns, l: Lhs, k: nat)
    requires IsFirst(us, l, k)
    ensures FirstFor(us, l) == Some(us[k].1)
    decreases k
  {
    if k > 0 {
      assert forall j | 0 < j < |us| :: us[1..][j - 1] == us[j];
      FirstForIs(us[1..], l, k - 1);
    }
  }

  lemma {:induction false} LastForIs(us: Assigns, l: Lhs, k: nat)
    requires IsLast(us, l, k)
    ensures LastFor(us, l) == Some(us[k].1)
    decreases |us|
  {
    if k < |us| - 1 {
      LastForIs(us[..|us| - 1], l, k);
    }
  }

  lemma {:induction false} FirstForListed(us: Assigns, l: Lhs)
    ensures FirstFor(us, l).Some? <==> Lists(us, l)
    decreases us
  {
    if us != [] {
      FirstForListed(us[1..], l);
      assert forall j | 0 < j < |us| :: us[1..][j - 1] == us[j];
      if Lists(us[1..], l) {
        var k :| 0 <= k < |us[1..]| && us[1..][k].0 == l;
        assert us[k + 1].0 == l;
      }
    }
  }

  lemma LastForListed(us: Assigns, l: Lhs)
    ensures LastFor(us, l).Some? <==> Lists(us, l)
  {
    LastForSome(us, l);
  }

  lemma HeldIs(l: Lhs, env: Env)
    ensures Eval(Held(l), env) == ValueOf(l, env)
  {
  }

  lemma GuardsKnown(actions: seq<Action>, env: Env)
    requires forall i | 0 <= i < |actions| :: Known(actions[i].guard, env)
    ensures GuardsDecided(actions, env)
  {
  }

  /** Of branches whose guards have values, the first open one that lists a left-hand side gives it its first assignment. */
  lemma BranchWins(branches: seq<Action>, l: Lhs, env: Env, b: nat, k: nat)
    requires forall i | 0 <= i < |branches| :: Known(branches[i].guard, env)
    requires b < |branches| && Open(branches[b].guard, env) && IsFirst(branches[b].updates, l, k)
    requires forall i | 0 <= i < b :: !Open(branches[i].guard, env) || !Lists(branches[i].updates, l)
    ensures Eval(BranchNext(branches, l), env) == Eval(branches[b].updates[k].1, env)
  {
    GuardsKnown(branches, env);
    FirstForIs(branches[b].updates, l, k);
    forall i | 0 <= i < b
      ensures FirstFor(branches[i].updates, l).None? || !Ready(branches[i].guard, env)
    {
      FirstForListed(branches[i].updates, l);
    }
    BranchesSelect(branches, l, env, b);
  }

  /** With no open branch that lists it, a left-hand side keeps its value. */
  lemma NoBranchWins(branches: seq<Action>, l: Lhs, env: Env)
    requires forall i | 0 <= i < |branches| :: Known(branches[i].guard, env)
    requires forall i | 0 <= i < |branches| :: !Open(branches[i].guard, env) || !Lists(branches[i].updates, l)
    ensures Eval(BranchNext(branches, l), env) == ValueOf(l, env)
  {
    GuardsKnown(branches, env);
    forall i | 0 <= i < |branches|
      ensures FirstFor(branches[i].updates, l).None? || !Ready(branches[i].guard, env)
    {
      FirstForListed(branches[i].updates, l);
    }
    BranchesSelect(branches, l, env, |branches|);
    HeldIs(l, env);
  }

  /** A clocked action under a condition that is open and lists the left-hand side. */
  ghost predicate Contends(a: Action, l: Lhs, env: Env) {
    a.guard.When? && Open(a.guard, env) && Lists(a.updates, l)
  }

  lemma ContendsIff(a: Action, l: Lhs, env: Env)
    ensures Contends(a, l, env) <==> Firing(a, l, env)
  {
    LastForListed(a.updates, l);
  }

  /** The first contender gives a left-hand side its last assignment, whatever is unconditional. */
  lemma ActionWins(actions: seq<Action>, l: Lhs, env: Env, a: nat, k: nat)
    requires forall i | 0 <= i < |actions| :: Known(actions[i].guard, env)
    requires a < |actions| && Contends(actions[a], l, env) && IsLast(actions[a].updates, l, k)
    requires forall i | 0 <= i < a :: !Contends(actions[i], l, env)
    ensures Eval(ActionNext(actions, l), env) == Eval(actions[a].updates[k].1, env)
  {
    GuardsKnown(actions, env);
    LastForIs(actions[a].updates, l, k);
    forall i | 0 <= i <= a
      ensures Firing(actions[i], l, env) <==> i == a
    {
      ContendsIff(actions[i], l, env);
    }
    WritersSelect(actions, l, ActionDefault(actions, l), env, a);
  }

  ghost predicate Falls(a: Action, l: Lhs) {
    a.guard.Always? && Lists(a.updates, l)
  }

  /** With no contender, the first unconditional action that lists a left-hand side gives it its last assignment. */
  lemma DefaultWins(actions: seq<Action>, l: Lhs, env: Env, a: nat, k: nat)
    requires forall i | 0 <= i < |actions| :: Known(actions[i].guard, env) && !Contends(actions[i], l, env)
    requires a < |actions| && Falls(actions[a], l) && IsLast(actions[a].updates, l, k)
    requires forall i | 0 <= i < a :: !Falls(actions[i], l)
    ensures Eval(ActionNext(actions, l), env) == Eval(actions[a].updates[k].1, env)
  {
    GuardsKnown(actions, env);
    NoContender(actions, l, env);
    LastForIs(actions[a].updates, l, k);
    forall i | 0 <= i <= a
      ensures Unconditional(actions[i], l) <==> i == a
    {
      LastForListed(actions[i].updates, l);
    }
    DefaultIsFirst(actions, l, a);
  }

  lemma NoContender(actions: seq<Action>, l: Lhs, env: Env)
    requires GuardsDecided(actions, env) && forall i | 0 <= i < |actions| :: !Contends(actions[i], l, env)
    ensures Eval(ActionNext(actions, l), env) == Eval(ActionDefault(actions, l), env)
  {
    forall i | 0 <= i < |actions|
      ensures !Firing(actions[i], l, env)
    {
      ContendsIff(actions[i], l, env);
    }
    WritersSelect(actions, l, ActionDefault(actions, l), env, |actions|);
  }

  /** With neither, it keeps its value. */
  lemma NoActionWins(actions: seq<Action>, l: Lhs, env: Env)
    requires forall i | 0 <= i < |actions| :: Known(actions[i].guard, env) && !Contends(actions[i], l, env)
    requires forall i | 0 <= i < |actions| :: !Falls(actions[i], l)
    ensures Eval(ActionNext(actions, l), env) == ValueOf(l, env)
  {
    GuardsKnown(actions, env);
    NoContender(actions, l, env);
    forall i | 0 <= i < |actions|
      ensures !Unconditional(actions[i], l)
    {
      LastForListed(actions[i].updates, l);
    }
    DefaultIsFirst(actions, l, |actions|);
    HeldIs(l, env);
  }
}
