/**
  Branches of one action and guarded actions across a spec, composed into one next-state
  expression per left-hand side. Proved: which writer wins, that exclusive writers may be listed
  in any order without changing what an edge does, and when a cell write survives composition.
  */
module Alternatives {
  import opened Expressions
  import opened Simulator
  import opened Composition

  function FirstFor(us: Assigns, l: Lhs): Option<Expr> {
    if us == [] then None else if us[0].0 == l then Some(us[0].1) else FirstFor(us[1..], l)
  }

  /** `dict(...)`: the last assignment of a left-hand side is the one kept. */
  function LastFor(us: Assigns, l: Lhs): Option<Expr> {
    if us == [] then None
    else if us[|us| - 1].0 == l then Some(us[|us| - 1].1)
    else LastFor(us[..|us| - 1], l)
  }

  lemma {:induction false} LastForSome(us: Assigns, l: Lhs)
    ensures LastFor(us, l).Some? <==> Assigned(us, l)
    decreases us
  {
    if us != [] {
      LastForSome(us[..|us| - 1], l);
      AssignedStep(us, l);
    }
  }

  // ---------------------------------------------------------------------------
  // Alternation
  // ---------------------------------------------------------------------------

  /** What each branch offers for a left-hand side; `TRUE` guards stay conditions here. */
  function BranchClauses(branches: seq<Action>, l: Lhs): seq<(Expr, Expr)> {
    if branches == [] then []
    else
      var b := branches[|branches| - 1];
      BranchClauses(branches[..|branches| - 1], l) +
      (match FirstFor(b.updates, l) case Some(e) => [(Condition(b.guard), e)] case None => [])
  }

  function BranchNext(branches: seq<Action>, l: Lhs): Expr {
    Fold(BranchClauses(branches, l), Held(l))
  }

  /** `_nested_if`: the chain is built from the last clause inwards. */
  method NestedIf(clauses: seq<(Expr, Expr)>, dflt: Expr) returns (out: Expr)
    ensures out == Fold(clauses, dflt)
  {
    out := dflt;
    var k := |clauses|;
    while k > 0
      invariant 0 <= k <= |clauses|
      invariant out == Fold(clauses[k..], dflt)
    {
      k := k - 1;
      assert clauses[k..][1..] == clauses[k + 1..];
      out := Ite(clauses[k].0, clauses[k].1, out);
    }
    assert clauses[0..] == clauses;
  }

  /** The clauses of one left-hand side, branch by branch, each branch searched for its first assignment. */
  method CollectClauses(branches: seq<Action>, l: Lhs) returns (clauses: seq<(Expr, Expr)>)
    ensures clauses == BranchClauses(branches, l)
  {
    clauses := [];
    for b := 0 to |branches|
      invariant clauses == BranchClauses(branches[..b], l)
    {
      var us := branches[b].updates;
      var k := 0;
      while k < |us| && us[k].0 != l
        invariant 0 <= k <= |us|
        invariant FirstFor(us[k..], l) == FirstFor(us, l)
      {
        assert us[k..][1..] == us[k + 1..];
        k := k + 1;
      }
      assert branches[..b + 1][..b] == branches[..b];
      if k < |us| {
        clauses := clauses + [(Condition(branches[b].guard), us[k].1)];
      } else {
        assert us[k..] == [];
      }
    }
    assert branches[..|branches|] == branches;
  }

  /** `_alternation_exprs` */
  method AlternationExprs(branches: seq<Action>) returns (r: Assigns)
    ensures |r| == |FirstSeen(AllUpdates(branches))|
    ensures forall k | 0 <= k < |r| ::
      r[k].0 == FirstSeen(AllUpdates(branches))[k] && r[k].1 == BranchNext(branches, r[k].0)
  {
    var order := OrderedAssignedVars(branches);
    r := [];
    for k := 0 to |order|
      invariant |r| == k
      invariant forall i | 0 <= i < k :: r[i].0 == order[i] && r[i].1 == BranchNext(branches, r[i].0)
    {
      var clauses := CollectClauses(branches, order[k]);
      var rhs := NestedIf(clauses, Held(order[k]));
      r := r + [(order[k], rhs)];
    }
  }

  /** No branch before `b` both assigns `l` and is true. */
  ghost predicate NoneBefore(branches: seq<Action>, l: Lhs, env: Env, b: nat)
    requires b <= |branches|
  {
    forall i | 0 <= i < b :: FirstFor(branches[i].updates, l).Some? ==> !Ready(branches[i].guard, env)
  }

  /** Branch `b` decides `l`: it is the first true one among those assigning it. */
  ghost predicate Decides(branches: seq<Action>, l: Lhs, env: Env, b: nat)
    requires b < |branches|
  {
    NoneBefore(branches, l, env, b) && FirstFor(branches[b].updates, l).Some? && Ready(branches[b].guard, env)
  }

  ghost predicate GuardsDecided(actions: seq<Action>, env: Env) {
    forall i | 0 <= i < |actions| :: Decided(actions[i].guard, env)
  }

  /** A chain extended at its end falls through to the extension. */
  lemma {:induction false} FoldAppend(pairs: seq<(Expr, Expr)>, p: (Expr, Expr), dflt: Expr)
    ensures Fold(pairs + [p], dflt) == Fold(pairs, Ite(p.0, p.1, dflt))
    decreases pairs
  {
    if pairs == [] {
      assert [] + [p] == [p] && [p][1..] == [];
    } else {
      assert (pairs + [p])[1..] == pairs[1..] + [p];
      FoldAppend(pairs[1..], p, dflt);
    }
  }

  /** What the last branch puts behind the others. */
  function BranchTail(a: Action, l: Lhs, dflt: Expr): Expr {
    match FirstFor(a.updates, l)
    case None => dflt
    case Some(e) => Ite(Condition(a.guard), e, dflt)
  }

  lemma BranchTailValue(a: Action, l: Lhs, dflt: Expr, env: Env)
    requires Decided(a.guard, env)
    ensures Eval(BranchTail(a, l, dflt), env) ==
      Eval(if FirstFor(a.updates, l).Some? && Ready(a.guard, env) then FirstFor(a.updates, l).value else dflt, env)
  {
  }

  lemma BranchClausesStep(branches: seq<Action>, l: Lhs, dflt: Expr)
    requires branches != []
    ensures var n := |branches| - 1;
      Fold(BranchClauses(branches, l), dflt) == Fold(BranchClauses(branches[..n], l), BranchTail(branches[n], l, dflt))
  {
    var n := |branches| - 1;
    if FirstFor(branches[n].updates, l).Some? {
      FoldAppend(BranchClauses(branches[..n], l), (Condition(branches[n].guard), FirstFor(branches[n].updates, l).value), dflt);
    } else {
      assert BranchClauses(branches, l) == BranchClauses(branches[..n], l);
    }
  }

  /** The composed branches select the deciding branch, or the default when `b == |branches|`. */
  lemma {:induction false} ClausesSelect(branches: seq<Action>, l: Lhs, dflt: Expr, env: Env, b: nat)
    requires GuardsDecided(branches, env) && b <= |branches| && NoneBefore(branches, l, env, b)
    requires b < |branches| ==> Decides(branches, l, env, b)
    ensures Eval(Fold(BranchClauses(branches, l), dflt), env) ==
      Eval(if b < |branches| then FirstFor(branches[b].updates, l).value else dflt, env)
    decreases |branches|
  {
    if branches != [] {
      var n := |branches| - 1;
      var rest := if b < n then b else n;
      assert NoneBefore(branches[..n], l, env, rest);
      BranchClausesStep(branches, l, dflt);
      BranchTailValue(branches[n], l, dflt, env);
      ClausesSelect(branches[..n], l, BranchTail(branches[n], l, dflt), env, rest);
      assert b < n ==> branches[..n][b] == branches[b];
    } else {
      assert Fold(BranchClauses(branches, l), dflt) == dflt;
    }
  }

  /** Each left-hand side takes the first true branch assigning it; with none, it holds. */
  lemma BranchesSelect(branches: seq<Action>, l: Lhs, env: Env, b: nat)
    requires GuardsDecided(branches, env) && b <= |branches| && NoneBefore(branches, l, env, b)
    requires b < |branches| ==> Decides(branches, l, env, b)
    ensures Eval(BranchNext(branches, l), env) ==
      Eval(if b < |branches| then FirstFor(branches[b].updates, l).value else Held(l), env)
  {
    ClausesSelect(branches, l, Held(l), env, b);
  }

  /** Mutually exclusive branches: at most one is true. */
  ghost predicate Exclusive(actions: seq<Action>, env: Env) {
    forall i, j | 0 <= i < j < |actions| :: !(Ready(actions[i].guard, env) && Ready(actions[j].guard, env))
  }

  /** With exclusive branches, a true branch is executed as a whole and everything else holds. */
  lemma ExclusiveBranchTaken(branches: seq<Action>, env: Env, b: nat, l: Lhs)
    requires GuardsDecided(branches, env) && Exclusive(branches, env)
    requires b < |branches| && Ready(branches[b].guard, env)
    ensures Eval(BranchNext(branches, l), env) ==
      match FirstFor(branches[b].updates, l) case Some(e) => Eval(e, env) case None => Eval(Held(l), env)
  {
    if FirstFor(branches[b].updates, l).Some? {
      BranchesSelect(branches, l, env, b);
    } else {
      BranchesSelect(branches, l, env, |branches|);
    }
  }

  /** Some branch decides a left-hand side, or none that is true assigns it. */
  lemma {:induction false} SomeDecides(branches: seq<Action>, l: Lhs, env: Env, n: nat) returns (b: nat)
    requires n <= |branches|
    ensures b <= n && NoneBefore(branches, l, env, b) && (b < n ==> Decides(branches, l, env, b))
  {
    if n == 0 {
      return 0;
    }
    b := SomeDecides(branches, l, env, n - 1);
    if b == n - 1 && !(FirstFor(branches[b].updates, l).Some? && Ready(branches[b].guard, env)) {
      b := n;
    }
  }

  /** What executing branch `b` alone leaves in `l`. */
  function BranchAlone(b: Action, l: Lhs, env: Env): Value {
    match FirstFor(b.updates, l) case Some(e) => Eval(e, env) case None => Eval(Held(l), env)
  }

  /**
    The first true branch is executed as a whole at `l` exactly when it assigns `l`, or whatever
    later branch decides `l` leaves it its old value.
    */
  lemma FirstTrueBranchIff(branches: seq<Action>, env: Env, b: nat, l: Lhs)
    requires GuardsDecided(branches, env) && b < |branches| && Ready(branches[b].guard, env)
    requires forall i | 0 <= i < b :: !Ready(branches[i].guard, env)
    ensures Eval(BranchNext(branches, l), env) == BranchAlone(branches[b], l, env) <==>
      FirstFor(branches[b].updates, l).Some? ||
      forall c: nat | c < |branches| && Decides(branches, l, env, c) :: BranchAlone(branches[c], l, env) == Eval(Held(l), env)
  {
    var c := SomeDecides(branches, l, env, |branches|);
    BranchesSelect(branches, l, env, c);
    if FirstFor(branches[b].updates, l).Some? {
      assert Decides(branches, l, env, b);
      BranchesSelect(branches, l, env, b);
    }
    forall c': nat | c' < |branches| && Decides(branches, l, env, c')
      ensures BranchAlone(branches[c'], l, env) == Eval(BranchNext(branches, l), env)
    {
      BranchesSelect(branches, l, env, c');
    }
  }

  /**
    Without exclusivity priority is per left-hand side, not per branch: a later true branch still
    writes what an earlier true branch leaves alone.
    */
  lemma LaterBranchMixes(x: Name, y: Name, env: Env)
    requires x != y
    ensures var branches := [Action(Always, [(Reg(x), Const(1))]), Action(Always, [(Reg(y), Const(2))])];
      && Ready(branches[0].guard, env)
      && Eval(BranchNext(branches, Reg(x)), env) == V(1)
      && Eval(BranchNext(branches, Reg(y)), env) == V(2)
  {
    var branches := [Action(Always, [(Reg(x), Const(1))]), Action(Always, [(Reg(y), Const(2))])];
    assert branches[0].updates[1..] == [];
    BranchesSelect(branches, Reg(x), env, 0);
    BranchesSelect(branches, Reg(y), env, 1);
  }

  // ---------------------------------------------------------------------------
  // Cross-action composition
  // ---------------------------------------------------------------------------

  /** The conditional writers of a left-hand side, in action order. */
  function ActionClauses(actions: seq<Action>, l: Lhs): seq<(Expr, Expr)> {
    if actions == [] then []
    else
      var a := actions[|actions| - 1];
      ActionClauses(actions[..|actions| - 1], l) +
      (if a.guard.When? && LastFor(a.updates, l).Some? then [(a.guard.e, LastFor(a.updates, l).value)] else [])
  }

  /** The first unconditional writer, or the old value. */
  function ActionDefault(actions: seq<Action>, l: Lhs): Expr {
    if actions == [] then Held(l)
    else
      var a := actions[0];
      if a.guard.Always? && LastFor(a.updates, l).Some? then LastFor(a.updates, l).value
      else ActionDefault(actions[1..], l)
  }

  function ActionNext(actions: seq<Action>, l: Lhs): Expr {
    Fold(ActionClauses(actions, l), ActionDefault(actions, l))
  }

  /** `_compose_clocked_actions`, for actions whose own updates are already composed. */
  method ComposeClockedActions(actions: seq<Action>) returns (r: Assigns)
    ensures |r| == |FirstSeen(AllUpdates(actions))|
    ensures forall k | 0 <= k < |r| ::
      r[k].0 == FirstSeen(AllUpdates(actions))[k] && r[k].1 == ActionNext(actions, r[k].0)
  {
    var order := OrderedAssignedVars(actions);
    r := [];
    for k := 0 to |order|
      invariant |r| == k
      invariant forall i | 0 <= i < k :: r[i].0 == order[i] && r[i].1 == ActionNext(actions, r[i].0)
    {
      var clauses, dflt := CollectWriters(actions, order[k]);
      var rhs := NestedIf(clauses, if dflt.Some? then dflt.value else Held(order[k]));
      r := r + [(order[k], rhs)];
    }
  }

  function OrElse(o: Option<Expr>, e: Expr): Expr {
    if o.Some? then o.value else e
  }

  method CollectWriters(actions: seq<Action>, l: Lhs) returns (clauses: seq<(Expr, Expr)>, dflt: Option<Expr>)
    ensures clauses == ActionClauses(actions, l)
    ensures ActionDefault(actions, l) == OrElse(dflt, Held(l))
  {
    clauses, dflt := [], None;
    for i := 0 to |actions|
      invariant clauses == ActionClauses(actions[..i], l)
      invariant ActionDefault(actions, l) == OrElse(dflt, ActionDefault(actions[i..], l))
    {
      var a := actions[i];
      assert actions[..i + 1][..i] == actions[..i] && actions[i..][1..] == actions[i + 1..];
      var e := LastFor(a.updates, l);
      if e.Some? {
        if a.guard.Always? {
          if dflt.None? {
            dflt := e;
          }
        } else {
          clauses := clauses + [(a.guard.e, e.value)];
        }
      }
    }
    assert actions[..|actions|] == actions && actions[|actions|..] == [];
  }

  /** `a` writes `l` under a condition that is true. */
  predicate Firing(a: Action, l: Lhs, env: Env) {
    a.guard.When? && LastFor(a.updates, l).Some? && Fires(a.guard.e, env)
  }

  /** `a` writes `l` unconditionally. */
  predicate Unconditional(a: Action, l: Lhs) {
    a.guard.Always? && LastFor(a.updates, l).Some?
  }

  /** What the last action puts behind the others. */
  function WriterTail(a: Action, l: Lhs, dflt: Expr): Expr {
    if a.guard.When? && LastFor(a.updates, l).Some? then Ite(a.guard.e, LastFor(a.updates, l).value, dflt) else dflt
  }

  lemma WriterTailValue(a: Action, l: Lhs, dflt: Expr, env: Env)
    requires Decided(a.guard, env)
    ensures Eval(WriterTail(a, l, dflt), env) ==
      Eval(if Firing(a, l, env) then LastFor(a.updates, l).value else dflt, env)
  {
  }

  lemma ActionClausesStep(actions: seq<Action>, l: Lhs, dflt: Expr)
    requires actions != []
    ensures var n := |actions| - 1;
      Fold(ActionClauses(actions, l), dflt) == Fold(ActionClauses(actions[..n], l), WriterTail(actions[n], l, dflt))
  {
    var n := |actions| - 1;
    var a := actions[n];
    if a.guard.When? && LastFor(a.updates, l).Some? {
      FoldAppend(ActionClauses(actions[..n], l), (a.guard.e, LastFor(a.updates, l).value), dflt);
    } else {
      assert ActionClauses(actions, l) == ActionClauses(actions[..n], l);
    }
  }

  lemma {:induction false} WritersSelect(actions: seq<Action>, l: Lhs, dflt: Expr, env: Env, b: nat)
    requires GuardsDecided(actions, env) && b <= |actions|
    requires forall i | 0 <= i < b :: !Firing(actions[i], l, env)
    requires b < |actions| ==> Firing(actions[b], l, env)
    ensures Eval(Fold(ActionClauses(actions, l), dflt), env) ==
      Eval(if b < |actions| then LastFor(actions[b].updates, l).value else dflt, env)
    decreases |actions|
  {
    if actions != [] {
      var n := |actions| - 1;
      var rest := if b < n then b else n;
      ActionClausesStep(actions, l, dflt);
      WriterTailValue(actions[n], l, dflt, env);
      WritersSelect(actions[..n], l, WriterTail(actions[n], l, dflt), env, rest);
      assert b < n ==> actions[..n][b] == actions[b];
    } else {
      assert Fold(ActionClauses(actions, l), dflt) == dflt;
    }
  }

  lemma {:induction false} DefaultIsFirst(actions: seq<Action>, l: Lhs, b: nat)
    requires b <= |actions|
    requires forall i | 0 <= i < b :: !Unconditional(actions[i], l)
    requires b < |actions| ==> Unconditional(actions[b], l)
    ensures ActionDefault(actions, l) == if b < |actions| then LastFor(actions[b].updates, l).value else Held(l)
    decreases |actions|
  {
    if b > 0 {
      assert !Unconditional(actions[0], l);
      DefaultIsFirst(actions[1..], l, b - 1);
    }
  }

  /** The action that determines the next value of `l`, or none when it holds. */
  function Winner(actions: seq<Action>, l: Lhs, env: Env): Option<Action> {
    if exists i | 0 <= i < |actions| :: Firing(actions[i], l, env) then
      var i := FirstIndex(actions, a => Firing(a, l, env)); Some(actions[i])
    else if exists i | 0 <= i < |actions| :: Unconditional(actions[i], l) then
      var i := FirstIndex(actions, a => Unconditional(a, l)); Some(actions[i])
    else None
  }

  function FirstIndex(actions: seq<Action>, p: Action -> bool): (k: nat)
    requires exists i | 0 <= i < |actions| :: p(actions[i])
    ensures k < |actions| && p(actions[k]) && forall i | 0 <= i < k :: !p(actions[i])
    decreases |actions|
  {
    if p(actions[0]) then 0
    else
      assert exists i | 0 <= i < |actions[1..]| :: p(actions[1..][i]) by {
        var i :| 0 <= i < |actions| && p(actions[i]);
        assert actions[1..][i - 1] == actions[i];
      }
      1 + FirstIndex(actions[1..], p)
  }

  lemma FirstFiring(actions: seq<Action>, l: Lhs, env: Env) returns (f: nat)
    ensures f <= |actions| && forall i | 0 <= i < f :: !Firing(actions[i], l, env)
    ensures f < |actions| ==> Firing(actions[f], l, env) && Winner(actions, l, env) == Some(actions[f])
  {
    f := if exists i | 0 <= i < |actions| :: Firing(actions[i], l, env)
      then FirstIndex(actions, a => Firing(a, l, env)) else |actions|;
  }

  lemma FirstUnconditional(actions: seq<Action>, l: Lhs, env: Env) returns (d: nat)
    requires forall i | 0 <= i < |actions| :: !Firing(actions[i], l, env)
    ensures d <= |actions| && forall i | 0 <= i < d :: !Unconditional(actions[i], l)
    ensures d < |actions| ==> Unconditional(actions[d], l)
    ensures Winner(actions, l, env) == if d < |actions| then Some(actions[d]) else None
  {
    d := if exists i | 0 <= i < |actions| :: Unconditional(actions[i], l)
      then FirstIndex(actions, a => Unconditional(a, l)) else |actions|;
  }

  /** Conditional writers outrank unconditional ones, whatever their order; within a rank the first wins. */
  lemma ActionsSelect(actions: seq<Action>, l: Lhs, env: Env)
    requires GuardsDecided(actions, env)
    ensures Eval(ActionNext(actions, l), env) ==
      match Winner(actions, l, env)
      case Some(a) => Eval(OrElse(LastFor(a.updates, l), Held(l)), env)
      case None => Eval(Held(l), env)
  {
    var f := FirstFiring(actions, l, env);
    WritersSelect(actions, l, ActionDefault(actions, l), env, f);
    if f == |actions| {
      var d := FirstUnconditional(actions, l, env);
      DefaultIsFirst(actions, l, d);
    }
  }

  /** Writers of a left-hand side that cannot disagree: one true condition at most, one `TRUE` at most. */
  ghost predicate OneWriter(actions: seq<Action>, l: Lhs, env: Env) {
    && (forall a, b | a in actions && b in actions && Firing(a, l, env) && Firing(b, l, env) :: a == b)
    && (forall a, b | a in actions && b in actions && Unconditional(a, l) && Unconditional(b, l) :: a == b)
  }

  lemma SameActions(actions: seq<Action>, actions': seq<Action>)
    requires multiset(actions) == multiset(actions')
    ensures forall a :: a in actions <==> a in actions'
  {
    forall a
      ensures a in actions <==> a in actions'
    {
      assert a in multiset(actions) <==> a in multiset(actions');
    }
  }

  /** Exclusive writers may be listed in any order. */
  lemma OrderOfActionsIrrelevant(actions: seq<Action>, actions': seq<Action>, l: Lhs, env: Env)
    requires multiset(actions) == multiset(actions')
    requires GuardsDecided(actions, env) && OneWriter(actions, l, env)
    ensures Eval(ActionNext(actions, l), env) == Eval(ActionNext(actions', l), env)
  {
    SameActions(actions, actions');
    forall i | 0 <= i < |actions'|
      ensures Decided(actions'[i].guard, env)
    {
      assert actions'[i] in actions;
      var k :| 0 <= k < |actions| && actions[k] == actions'[i];
    }
    SameWinner(actions, actions', l, env);
    ActionsSelect(actions, l, env);
    ActionsSelect(actions', l, env);
  }

  lemma SameWinner(actions: seq<Action>, actions': seq<Action>, l: Lhs, env: Env)
    requires forall a :: a in actions <==> a in actions'
    requires OneWriter(actions, l, env)
    ensures Winner(actions, l, env) == Winner(actions', l, env)
  {
    var w, w' := Winner(actions, l, env), Winner(actions', l, env);
    SomeFires(actions, actions', l, env);
    SomeFires(actions', actions, l, env);
    assert w.Some? ==> w.value in actions;
    assert w'.Some? ==> w'.value in actions';
  }

  lemma SomeFires(actions: seq<Action>, actions': seq<Action>, l: Lhs, env: Env)
    requires forall a :: a in actions ==> a in actions'
    ensures (exists i | 0 <= i < |actions| :: Firing(actions[i], l, env)) ==>
      exists i | 0 <= i < |actions'| :: Firing(actions'[i], l, env)
    ensures (exists i | 0 <= i < |actions| :: Unconditional(actions[i], l)) ==>
      exists i | 0 <= i < |actions'| :: Unconditional(actions'[i], l)
  {
    if exists i | 0 <= i < |actions| :: Firing(actions[i], l, env) {
      var i :| 0 <= i < |actions| && Firing(actions[i], l, env);
      assert actions[i] in actions';
      var j :| 0 <= j < |actions'| && actions'[j] == actions[i];
    }
    if exists i | 0 <= i < |actions| :: Unconditional(actions[i], l) {
      var i :| 0 <= i < |actions| && Unconditional(actions[i], l);
      assert actions[i] in actions';
      var j :| 0 <= j < |actions'| && actions'[j] == actions[i];
    }
  }

  // ---------------------------------------------------------------------------
  // On the simulator
  // ---------------------------------------------------------------------------

  /** The composed list: one entry per left-hand side, in order of first assignment. */
  function Composed(actions: seq<Action>): (r: Assigns)
    ensures |r| == |FirstSeen(AllUpdates(actions))|
  {
    var order := FirstSeen(AllUpdates(actions));
    seq(|order|, k requires 0 <= k < |order| => (order[k], ActionNext(actions, order[k])))
  }

  lemma ComposedLists(actions: seq<Action>, l: Lhs)
    ensures (exists k | 0 <= k < |Composed(actions)| :: Composed(actions)[k].0 == l) <==> Assigned(AllUpdates(actions), l)
    ensures forall i, j | 0 <= i < j < |Composed(actions)| :: Composed(actions)[i].0 != Composed(actions)[j].0
  {
    var order, r := FirstSeen(AllUpdates(actions)), Composed(actions);
    if l in order {
      var k :| 0 <= k < |order| && order[k] == l;
      assert r[k].0 == l;
    }
    if exists k | 0 <= k < |r| :: r[k].0 == l {
      var k :| 0 <= k < |r| && r[k].0 == l;
      assert order[k] == l;
    }
  }

  ghost predicate RegisterActions(actions: seq<Action>) {
    forall a, k | a in actions && 0 <= k < |a.updates| :: a.updates[k].0.Reg?
  }

  lemma {:induction false} AssignedByOne(actions: seq<Action>, l: Lhs)
    ensures Assigned(AllUpdates(actions), l) <==> exists a :: a in actions && Assigned(a.updates, l)
    decreases |actions|
  {
    if actions != [] {
      var n := |actions| - 1;
      var head, last := AllUpdates(actions[..n]), actions[n].updates;
      AssignedByOne(actions[..n], l);
      AssignedEither(head, last, l);
      if exists a :: a in actions && Assigned(a.updates, l) {
        var a :| a in actions && Assigned(a.updates, l);
        assert a in actions[..n] || a == actions[n];
      }
      if Assigned(head, l) {
        var a :| a in actions[..n] && Assigned(a.updates, l);
        assert a in actions;
      }
      assert actions[n] in actions;
    }
  }

  lemma AssignedEither(us: Assigns, vs: Assigns, l: Lhs)
    ensures Assigned(us + vs, l) <==> Assigned(us, l) || Assigned(vs, l)
  {
    if Assigned(us, l) {
      var k :| 0 <= k < |us| && us[k].0 == l;
      assert (us + vs)[k].0 == l;
    }
    if Assigned(vs, l) {
      var k :| 0 <= k < |vs| && vs[k].0 == l;
      assert (us + vs)[|us| + k].0 == l;
    }
  }

  lemma ComposedRegs(actions: seq<Action>)
    requires RegisterActions(actions)
    ensures RegsOnly(Composed(actions)) && DistinctBases(Composed(actions))
  {
    var r := Composed(actions);
    forall k | 0 <= k < |r|
      ensures r[k].0.Reg?
    {
      var l := r[k].0;
      ComposedLists(actions, l);
      AssignedByOne(actions, l);
      var a :| a in actions && Assigned(a.updates, l);
      var i :| 0 <= i < |a.updates| && a.updates[i].0 == l;
    }
    ComposedLists(actions, Reg(""));
    assert forall i, j | 0 <= i < j < |r| :: r[i].0 != r[j].0;
  }

  /** What an edge leaves in a register: the composed value of the register, masked, or the old value. */
  lemma ComposedEdge(widths: map<Name, int>, actions: seq<Action>, s: Env, x: Name)
    requires RegisterActions(actions)
    ensures var s' := LandRegs(widths, s, s, Composed(actions));
      if Assigned(AllUpdates(actions), Reg(x))
      then Lookup(s', x) == NewValue(widths, s, x, ActionNext(actions, Reg(x)))
      else SameAt(s', s, x)
  {
    var r := Composed(actions);
    ComposedRegs(actions);
    LandRegsLookup(widths, s, s, r, x);
    ComposedLists(actions, Reg(x));
    if Assigned(AllUpdates(actions), Reg(x)) {
      var k :| 0 <= k < |r| && r[k].0 == Reg(x);
    } else {
      forall k | 0 <= k < |r|
        ensures r[k].0.Base() != x
      {
        assert r[k].0.Reg? && r[k].0 != Reg(x);
      }
    }
  }

  /** Listing exclusive actions in another order changes no register of the next state. */
  lemma PermutedActionsSameEdge(widths: map<Name, int>, actions: seq<Action>, actions': seq<Action>, s: Env, x: Name)
    requires RegisterActions(actions) && multiset(actions) == multiset(actions')
    requires GuardsDecided(actions, s) && OneWriter(actions, Reg(x), s)
    ensures Lookup(LandRegs(widths, s, s, Composed(actions)), x) == Lookup(LandRegs(widths, s, s, Composed(actions')), x)
  {
    SameActions(actions, actions');
    assert RegisterActions(actions');
    ComposedEdge(widths, actions, s, x);
    ComposedEdge(widths, actions', s, x);
    AssignedByOne(actions, Reg(x));
    AssignedByOne(actions', Reg(x));
    assert Assigned(AllUpdates(actions), Reg(x)) <==> Assigned(AllUpdates(actions'), Reg(x));
    OrderOfActionsIrrelevant(actions, actions', Reg(x), s);
  }

  // ---------------------------------------------------------------------------
  // One unconditional action
  // ---------------------------------------------------------------------------

  ghost predicate DistinctLhs(us: Assigns) {
    forall i, j | 0 <= i < j < |us| :: us[i].0 != us[j].0
  }

  lemma {:induction false} FirstSeenDistinct(us: Assigns)
    requires DistinctLhs(us)
    ensures |FirstSeen(us)| == |us| && forall k | 0 <= k < |us| :: FirstSeen(us)[k] == us[k].0
    decreases us
  {
    if us != [] {
      FirstSeenDistinct(us[..|us| - 1]);
    }
  }

  lemma {:induction false} LastForDistinct(us: Assigns, k: nat)
    requires DistinctLhs(us) && k < |us|
    ensures LastFor(us, us[k].0) == Some(us[k].1)
    decreases us
  {
    if k < |us| - 1 {
      LastForDistinct(us[..|us| - 1], k);
    }
  }

  lemma SingleUpdates(a: Action)
    ensures AllUpdates([a]) == a.updates
  {
    assert [a][..0] == [];
    assert AllUpdates([a]) == [] + a.updates;
  }

  lemma SingleNext(us: Assigns, k: nat)
    requires DistinctLhs(us) && k < |us|
    ensures ActionNext([Action(Always, us)], us[k].0) == us[k].1
  {
    var actions := [Action(Always, us)];
    LastForDistinct(us, k);
    assert actions[..0] == [];
    assert ActionClauses(actions, us[k].0) == ActionClauses([], us[k].0) + [];
  }

  /** A single unconditional action, such as a scheduled loop, composes to its own updates. */
  lemma SingleActionUnchanged(us: Assigns)
    requires DistinctLhs(us)
    ensures Composed([Action(Always, us)]) == us
  {
    SingleUpdates(Action(Always, us));
    FirstSeenDistinct(us);
    forall k | 0 <= k < |us|
      ensures Composed([Action(Always, us)])[k] == us[k]
    {
      SingleNext(us, k);
    }
  }

  // ---------------------------------------------------------------------------
  // Memory cells
  // ---------------------------------------------------------------------------

  /** The cell a left-hand side names in state `s`. */
  predicate Names(l: Lhs, s: Env, base: Name, cell: nat) {
    l.Elem? && l.base == base && Eval(l.idx, s) == V(cell)
  }

  /** Update `k` is the last one that names the cell. */
  ghost predicate LastNaming(us: Assigns, pre: Env, base: Name, cell: nat, k: nat) {
    k < |us| && Names(us[k].0, pre, base, cell) && forall j | k < j < |us| :: !Names(us[j].0, pre, base, cell)
  }

  ghost predicate Unnamed(us: Assigns, pre: Env, base: Name, cell: nat) {
    forall k | 0 <= k < |us| :: !Names(us[k].0, pre, base, cell)
  }

  lemma {:induction false} SomeNamesLast(us: Assigns, pre: Env, base: Name, cell: nat) returns (k: nat)
    requires !Unnamed(us, pre, base, cell)
    ensures LastNaming(us, pre, base, cell, k)
    decreases |us|
  {
    k := |us| - 1;
    if !Names(us[k].0, pre, base, cell) {
      k := SomeNamesLast(us[..k], pre, base, cell);
    }
  }

  predicate HasCell(s: Env, base: Name, cell: nat) {
    base in s && s[base].Memory? && cell < |s[base].cells|
  }

  function CellIn(s: Env, base: Name, cell: nat): Value {
    if HasCell(s, base, cell) then s[base].cells[cell] else X
  }

  function OneLanded(widths: map<Name, int>, s: Env, pre: Env, u: (Lhs, Expr)): Env {
    match u.0
    case Reg(_) => s
    case Elem(b, i) => WriteCell(s, b, Eval(i, pre), NewValue(widths, pre, b, u.1))
  }

  lemma OneCellLands(widths: map<Name, int>, s: Env, pre: Env, u: (Lhs, Expr), base: Name, cell: nat)
    requires HasCell(s, base, cell)
    ensures var s' := OneLanded(widths, s, pre, u);
      && HasCell(s', base, cell) && |s'[base].cells| == |s[base].cells|
      && CellIn(s', base, cell) == if Names(u.0, pre, base, cell) then NewValue(widths, pre, base, u.1) else CellIn(s, base, cell)
  {
  }

  lemma LastBehind(us: Assigns, pre: Env, base: Name, cell: nat, k: nat)
    requires LastNaming(us, pre, base, cell, k)
    ensures if k == 0 then Unnamed(us[1..], pre, base, cell) else LastNaming(us[1..], pre, base, cell, k - 1)
  {
    assert forall j | 0 < j < |us| :: us[1..][j - 1] == us[j];
  }

  /** Whatever the updates, a cell takes the value of the last one that names it, read before the edge, or holds. */
  lemma {:induction false} CellTakesLast(widths: map<Name, int>, s: Env, pre: Env, us: Assigns, base: Name, cell: nat)
    requires HasCell(s, base, cell)
    ensures var s' := LandCells(widths, s, pre, us);
      && HasCell(s', base, cell) && |s'[base].cells| == |s[base].cells|
      && (forall k: nat | LastNaming(us, pre, base, cell, k) :: CellIn(s', base, cell) == NewValue(widths, pre, base, us[k].1))
      && (Unnamed(us, pre, base, cell) ==> CellIn(s', base, cell) == CellIn(s, base, cell))
    decreases us
  {
    if us != [] {
      var next := OneLanded(widths, s, pre, us[0]);
      OneCellLands(widths, s, pre, us[0], base, cell);
      CellTakesLast(widths, next, pre, us[1..], base, cell);
      forall k: nat | LastNaming(us, pre, base, cell, k)
        ensures CellIn(LandCells(widths, s, pre, us), base, cell) == NewValue(widths, pre, base, us[k].1)
      {
        LastBehind(us, pre, base, cell, k);
      }
    }
  }

  /** A store survives exactly when the last update that names its cell writes the same value. */
  lemma StoreSurvivesIff(widths: map<Name, int>, s: Env, pre: Env, us: Assigns, base: Name, cell: nat, k: nat)
    requires HasCell(s, base, cell) && k < |us| && Names(us[k].0, pre, base, cell)
    ensures CellIn(LandCells(widths, s, pre, us), base, cell) == NewValue(widths, pre, base, us[k].1) <==>
      forall m: nat | LastNaming(us, pre, base, cell, m) :: NewValue(widths, pre, base, us[m].1) == NewValue(widths, pre, base, us[k].1)
  {
    CellTakesLast(widths, s, pre, us, base, cell);
    var m := SomeNamesLast(us, pre, base, cell);
  }

  /**
    On composed actions the left-hand side that names the cell last decides: the cell takes its winner's
    value, and without a winner its old one, whatever the left-hand sides before it stored.
    */
  lemma LastLhsDecides(widths: map<Name, int>, s: Env, pre: Env, actions: seq<Action>, base: Name, cell: nat, m: nat)
    requires HasCell(s, base, cell) && HasCell(pre, base, cell) && GuardsDecided(actions, pre)
    requires LastNaming(Composed(actions), pre, base, cell, m)
    ensures var l := Composed(actions)[m].0;
      CellIn(LandCells(widths, s, pre, Composed(actions)), base, cell) == Mask(
        match Winner(actions, l, pre)
        case Some(a) => Eval(OrElse(LastFor(a.updates, l), Held(l)), pre)
        case None => CellIn(pre, base, cell), WidthOf(widths, base))
  {
    CellTakesLast(widths, s, pre, Composed(actions), base, cell);
    ActionsSelect(actions, Composed(actions)[m].0, pre);
  }

  lemma OnlyNamerIsLast(us: Assigns, pre: Env, base: Name, cell: nat, k: nat)
    requires DistinctBases(us) && k < |us| && Names(us[k].0, pre, base, cell)
    ensures LastNaming(us, pre, base, cell, k)
  {
    forall j | k < j < |us|
      ensures !Names(us[j].0, pre, base, cell)
    {
      assert us[k].0.Base() != us[j].0.Base();
    }
  }

  /** With one indexed left-hand side per memory, its cell takes the composed value and the others hold. */
  lemma {:induction false} CellsLand(widths: map<Name, int>, s: Env, pre: Env, us: Assigns, base: Name, cell: nat)
    requires DistinctBases(us)
    requires base in s && s[base].Memory? && cell < |s[base].cells|
    ensures var s' := LandCells(widths, s, pre, us);
      && base in s' && s'[base].Memory? && |s'[base].cells| == |s[base].cells|
      && (forall k | 0 <= k < |us| && Names(us[k].0, pre, base, cell) ::
            s'[base].cells[cell] == NewValue(widths, pre, base, us[k].1))
      && ((forall k | 0 <= k < |us| :: !Names(us[k].0, pre, base, cell)) ==> s'[base].cells[cell] == s[base].cells[cell])
  {
    CellTakesLast(widths, s, pre, us, base, cell);
    forall k | 0 <= k < |us| && Names(us[k].0, pre, base, cell)
      ensures CellIn(LandCells(widths, s, pre, us), base, cell) == NewValue(widths, pre, base, us[k].1)
    {
      OnlyNamerIsLast(us, pre, base, cell, k);
    }
  }

  /** Two actions over one memory: a store of 7 at `p`, and a store of 9 at `q` that is switched off. */
  function StoreActions(mem: Name, p: Name, q: Name, off: Name): seq<Action> {
    [Action(Always, [(Elem(mem, Var(p)), Const(7))]), Action(When(Var(off)), [(Elem(mem, Var(q)), Const(9))])]
  }

  lemma StoreOrder(mem: Name, p: Name, q: Name, off: Name)
    requires p != q
    ensures FirstSeen(AllUpdates(StoreActions(mem, p, q, off))) == [Elem(mem, Var(p)), Elem(mem, Var(q))]
  {
    var actions := StoreActions(mem, p, q, off);
    assert actions[..1][..0] == [] && actions[..1] == [actions[0]];
    assert AllUpdates(actions[..1]) == [] + actions[0].updates;
    var us := AllUpdates(actions);
    assert us == [(Elem(mem, Var(p)), Const(7)), (Elem(mem, Var(q)), Const(9))];
    assert DistinctLhs(us);
    FirstSeenDistinct(us);
  }

  lemma StoreValues(mem: Name, p: Name, q: Name, off: Name, s: Env)
    requires p != q && Lookup(s, off) == V(0)
    ensures Eval(ActionNext(StoreActions(mem, p, q, off), Elem(mem, Var(p))), s) == V(7)
    ensures Eval(ActionNext(StoreActions(mem, p, q, off), Elem(mem, Var(q))), s) == Eval(Index(mem, Var(q)), s)
  {
    var actions := StoreActions(mem, p, q, off);
    var lp, lq := Elem(mem, Var(p)), Elem(mem, Var(q));
    LastForDistinct(actions[0].updates, 0);
    LastForDistinct(actions[1].updates, 0);
    LastForSome(actions[0].updates, lq);
    LastForSome(actions[1].updates, lp);
    ActionsSelect(actions, lp, s);
    ActionsSelect(actions, lq, s);
    assert Unconditional(actions[0], lp);
  }

  lemma TwoCellsLand(s: Env, us: Assigns, mem: Name)
    requires |us| == 2 && us[0].0.Elem? && us[1].0.Elem? && us[0].0.base == mem == us[1].0.base
    requires mem in s && s[mem] == Memory([V(0)])
    requires Eval(us[0].0.idx, s) == V(0) == Eval(us[1].0.idx, s)
    ensures var s' := LandCells(map[], s, s, us); mem in s' && s'[mem] == Memory([Eval(us[1].1, s)])
  {
    var s1 := WriteCell(s, mem, V(0), Eval(us[0].1, s));
    var s2 := WriteCell(s1, mem, V(0), Eval(us[1].1, s));
    assert us[1..][1..] == [];
    assert LandCells(map[], s2, s, us[1..][1..]) == s2;
    assert LandCells(map[], s1, s, us[1..]) == s2;
    assert s2[mem].cells == [Eval(us[1].1, s)];
  }

  /** When both name one cell, the idle writer writes the old value back over the store. */
  lemma AliasedHoldUndoesWrite(mem: Name, p: Name, q: Name, off: Name, s: Env)
    requires p != q && mem in s && s[mem] == Memory([V(0)])
    requires Lookup(s, p) == V(0) == Lookup(s, q) && Lookup(s, off) == V(0)
    ensures Eval(ActionNext(StoreActions(mem, p, q, off), Elem(mem, Var(p))), s) == V(7)
    ensures var s' := LandCells(map[], s, s, Composed(StoreActions(mem, p, q, off)));
      mem in s' && s'[mem] == Memory([V(0)])
  {
    StoreOrder(mem, p, q, off);
    StoreValues(mem, p, q, off, s);
    TwoCellsLand(s, Composed(StoreActions(mem, p, q, off)), mem);
  }
}
