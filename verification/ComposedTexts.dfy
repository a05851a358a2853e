/**
  The composition of updates as the bridge carries it out: on texts, keyed by the full spelling of a
  left-hand side. Proved: when the pieces are the texts of expressions, every composed text is the
  text of the expression the composition is modelled by.
  */
module ComposedTexts {
  import opened Expressions
  import opened Grammar
  import opened Splicing
  import opened Scheduling
  import Translation
  import opened Simulator
  import opened Composition
  import opened Alternatives

  /** A left-hand side as it is keyed: a name, or a base name and the text of its index. */
  datatype Key = Plain(x: Name) | Indexed(base: Name, idx: Text)

  ghost predicate Spells(k: Key, l: Lhs) {
    match l
    case Reg(x) => k == Plain(x)
    case Elem(b, i) => k.Indexed? && k.base == b && Denotes(k.idx, i)
  }

  /** One spelling for each left-hand side. */
  ghost predicate OneSpelling(sp: map<Lhs, Key>) {
    forall l | l in sp :: Spells(sp[l], l)
  }

  /** A key names one left-hand side. */
  lemma KeyNamesOne(sp: map<Lhs, Key>, l: Lhs, l': Lhs)
    requires OneSpelling(sp) && l in sp && l' in sp
    ensures sp[l] == sp[l'] <==> l == l'
  {
    assert Spells(sp[l], l) && Spells(sp[l'], l');
  }

  /** The text a left-hand side holds by. */
  function HeldText(k: Key): Text {
    match k case Plain(x) => [TId(x)] case Indexed(b, s) => IndexText(b, s)
  }

  lemma HeldDenotes(k: Key, l: Lhs)
    requires Spells(k, l)
    ensures Denotes(HeldText(k), Held(l))
  {
    match l
    case Reg(x) =>
      NameDenotes(x, OR);
      OperandDenotes([TId(x)], Var(x), OR);
    case Elem(b, i) =>
      IndexDenotes(b, k.idx, i);
  }

  type TextUpdates = seq<(Key, Text)>

  /** A branch, a step or a clocked action. The guard `TRUE` is the word itself. */
  datatype TextAction = TextAction(guard: Text, updates: TextUpdates)

  ghost predicate UpdatesMean(ts: TextUpdates, us: Assigns, sp: map<Lhs, Key>) {
    && |ts| == |us|
    && forall k | 0 <= k < |us| :: us[k].0 in sp && ts[k].0 == sp[us[k].0] && Denotes(ts[k].1, us[k].1)
  }

  lemma MeanNext(ts: TextUpdates, us: Assigns, sp: map<Lhs, Key>, t: (Key, Text))
    requires |ts| < |us| && UpdatesMean(ts, us[..|ts|], sp)
    requires us[|ts|].0 in sp && t.0 == sp[us[|ts|].0] && Denotes(t.1, us[|ts|].1)
    ensures UpdatesMean(ts + [t], us[..|ts| + 1], sp)
  {
  }

  ghost predicate GuardMeans(t: Text, g: Guard) {
    (t == [TTrue] <==> g.Always?) && Denotes(t, Condition(g))
  }

  ghost predicate ActionMeans(t: TextAction, a: Action, sp: map<Lhs, Key>) {
    GuardMeans(t.guard, a.guard) && UpdatesMean(t.updates, a.updates, sp)
  }

  ghost predicate ActionsMean(ts: seq<TextAction>, actions: seq<Action>, sp: map<Lhs, Key>) {
    |ts| == |actions| && forall k | 0 <= k < |actions| :: ActionMeans(ts[k], actions[k], sp)
  }

  // ---------------------------------------------------------------------------
  // Left-hand sides in the order they are first assigned
  // ---------------------------------------------------------------------------

  ghost predicate KeysMean(keys: seq<Key>, ls: seq<Lhs>, sp: map<Lhs, Key>) {
    |keys| == |ls| && forall k | 0 <= k < |ls| :: ls[k] in sp && keys[k] == sp[ls[k]]
  }

  lemma KeyListed(keys: seq<Key>, ls: seq<Lhs>, sp: map<Lhs, Key>, l: Lhs)
    requires OneSpelling(sp) && KeysMean(keys, ls, sp) && l in sp
    ensures sp[l] in keys <==> l in ls
  {
    if l in ls {
      var k :| 0 <= k < |ls| && ls[k] == l;
      assert keys[k] == sp[l];
    }
    if sp[l] in keys {
      var k :| 0 <= k < |keys| && keys[k] == sp[l];
      KeyNamesOne(sp, ls[k], l);
    }
  }

  /** One more assignment seen. */
  lemma KeysNext(keys: seq<Key>, before: Assigns, u: (Lhs, Expr), sp: map<Lhs, Key>)
    requires OneSpelling(sp) && KeysMean(keys, FirstSeen(before), sp) && u.0 in sp
    ensures KeysMean(if sp[u.0] in keys then keys else keys + [sp[u.0]], FirstSeen(before + [u]), sp)
  {
    FirstSeenNext(before, u);
    KeyListed(keys, FirstSeen(before), sp, u.0);
  }

  method AddKeys(order: seq<Key>, ts: TextUpdates, ghost before: Assigns, ghost us: Assigns, ghost sp: map<Lhs, Key>)
    returns (order': seq<Key>)
    requires OneSpelling(sp) && UpdatesMean(ts, us, sp) && KeysMean(order, FirstSeen(before), sp)
    ensures KeysMean(order', FirstSeen(before + us), sp)
  {
    order' := order;
    assert before + us[..0] == before;
    for k := 0 to |ts|
      invariant KeysMean(order', FirstSeen(before + us[..k]), sp)
    {
      AppendTake(before, us, k);
      KeysNext(order', before + us[..k], us[k], sp);
      if ts[k].0 !in order' {
        order' := order' + [ts[k].0];
      }
    }
    assert us[..|us|] == us;
  }

  /** `_ordered_assigned_vars` on texts */
  method OrderedKeys(groups: seq<TextAction>, ghost actions: seq<Action>, ghost sp: map<Lhs, Key>) returns (order: seq<Key>)
    requires OneSpelling(sp) && ActionsMean(groups, actions, sp)
    ensures KeysMean(order, FirstSeen(AllUpdates(actions)), sp)
  {
    order := [];
    for g := 0 to |groups|
      invariant KeysMean(order, FirstSeen(AllUpdates(actions[..g])), sp)
    {
      assert actions[..g + 1][..g] == actions[..g];
      assert ActionMeans(groups[g], actions[g], sp);
      order := AddKeys(order, groups[g].updates, AllUpdates(actions[..g]), actions[g].updates, sp);
    }
    assert actions[..|actions|] == actions;
  }

  // ---------------------------------------------------------------------------
  // Chains
  // ---------------------------------------------------------------------------

  lemma GuardedDenotes(s: Text, e: Expr)
    requires Denotes(s, e)
    ensures Denotes(Translation.Guarded(s), e)
  {
    if Translation.StartsIf(s) {
      ParenDenotes(s, e, OR);
      OperandDenotes(ParenText(s), e, OR);
    }
  }

  /** The chain of the texts is the text of the chain. */
  lemma {:induction false} NestedIfDenotes(clauses: seq<Clause>, dflt: Text, es: seq<(Expr, Expr)>, ed: Expr)
    requires ClausesDenote(clauses, es) && Denotes(dflt, ed)
    ensures Denotes(Translation.NestedIfText(clauses, dflt), Fold(es, ed))
    decreases |clauses|
  {
    if clauses != [] {
      NestedIfDenotes(clauses[1..], dflt, es[1..], ed);
      GuardedDenotes(clauses[0].1, es[0].1);
      IfDenotes(clauses[0].0, Translation.Guarded(clauses[0].1), Translation.NestedIfText(clauses[1..], dflt),
                es[0].0, es[0].1, Fold(es[1..], ed));
    }
  }

  ghost predicate OptDenotes(t: Option<Text>, o: Option<Expr>) {
    (t.Some? <==> o.Some?) && (t.Some? ==> Denotes(t.value, o.value))
  }

  // ---------------------------------------------------------------------------
  // Alternation
  // ---------------------------------------------------------------------------

  /** What an alternation composes to, as a list of updates. */
  function BranchUpdates(branches: seq<Action>): Assigns {
    var order := FirstSeen(AllUpdates(branches));
    seq(|order|, k requires 0 <= k < |order| => (order[k], BranchNext(branches, order[k])))
  }

  method FirstText(ts: TextUpdates, key: Key, ghost us: Assigns, ghost l: Lhs, ghost sp: map<Lhs, Key>)
    returns (r: Option<Text>)
    requires OneSpelling(sp) && UpdatesMean(ts, us, sp) && l in sp && key == sp[l]
    ensures OptDenotes(r, FirstFor(us, l))
  {
    for k := 0 to |ts|
      invariant FirstFor(us[k..], l) == FirstFor(us, l)
    {
      assert us[k..][1..] == us[k + 1..];
      KeyNamesOne(sp, us[k].0, l);
      if ts[k].0 == key {
        return Some(ts[k].1);
      }
    }
    return None;
  }

  method CollectClauseTexts(branches: seq<TextAction>, key: Key, ghost bs: seq<Action>, ghost l: Lhs, ghost sp: map<Lhs, Key>)
    returns (clauses: seq<Clause>)
    requires OneSpelling(sp) && ActionsMean(branches, bs, sp) && l in sp && key == sp[l]
    ensures ClausesDenote(clauses, BranchClauses(bs, l))
  {
    clauses := [];
    for b := 0 to |branches|
      invariant ClausesDenote(clauses, BranchClauses(bs[..b], l))
    {
      assert bs[..b + 1][..b] == bs[..b];
      assert ActionMeans(branches[b], bs[b], sp);
      var value := FirstText(branches[b].updates, key, bs[b].updates, l, sp);
      if value.Some? {
        clauses := clauses + [(branches[b].guard, value.value)];
      }
    }
    assert bs[..|bs|] == bs;
  }

  /** The chain of one left-hand side. */
  method BranchText(branches: seq<TextAction>, key: Key, ghost bs: seq<Action>, ghost l: Lhs, ghost sp: map<Lhs, Key>)
    returns (rhs: Text)
    requires OneSpelling(sp) && ActionsMean(branches, bs, sp) && l in sp && key == sp[l]
    ensures Denotes(rhs, BranchNext(bs, l))
  {
    var clauses := CollectClauseTexts(branches, key, bs, l, sp);
    HeldDenotes(key, l);
    NestedIfDenotes(clauses, HeldText(key), BranchClauses(bs, l), Held(l));
    rhs := Translation.NestedIf(clauses, HeldText(key));
  }

  /** `_alternation_exprs` on texts */
  method AlternationTexts(branches: seq<TextAction>, ghost bs: seq<Action>, ghost sp: map<Lhs, Key>) returns (r: TextUpdates)
    requires OneSpelling(sp) && ActionsMean(branches, bs, sp)
    ensures UpdatesMean(r, BranchUpdates(bs), sp)
  {
    var order := OrderedKeys(branches, bs, sp);
    ghost var us := BranchUpdates(bs);
    r := [];
    for k := 0 to |order|
      invariant UpdatesMean(r, us[..k], sp)
    {
      var rhs := BranchText(branches, order[k], bs, us[k].0, sp);
      MeanNext(r, us, sp, (order[k], rhs));
      r := r + [(order[k], rhs)];
    }
    assert us[..|us|] == us;
  }

  // ---------------------------------------------------------------------------
  // Ordered steps
  // ---------------------------------------------------------------------------

  /** What ordered steps compose to, as a list of updates. */
  function StepUpdates(steps: seq<Action>): Assigns {
    var order := FirstSeen(AllUpdates(steps));
    seq(|order|, k requires 0 <= k < |order| =>
      MicroTargets(steps, order[k]); ForwardKeys(Micros(steps), order[k]);
      (order[k], Forward(Micros(steps))[order[k]]))
  }

  function ScalarTexts(running: map<Key, Text>): map<Name, Text> {
    map k | k in running && k.Plain? :: k.x := running[k]
  }

  /** The `running` dictionary of texts and of expressions. */
  ghost predicate RunningMeans(rt: map<Key, Text>, running: map<Lhs, Expr>, sp: map<Lhs, Key>) {
    && (forall l | l in running :: l in sp && sp[l] in rt && Denotes(rt[sp[l]], running[l]))
    && (forall k | k in rt :: exists l :: l in running && sp[l] == k)
  }

  lemma ScalarsDenote(rt: map<Key, Text>, running: map<Lhs, Expr>, sp: map<Lhs, Key>)
    requires OneSpelling(sp) && RunningMeans(rt, running, sp)
    ensures TextsDenote(ScalarTexts(rt), Scalars(running))
  {
    forall x
      ensures Plain(x) in rt <==> Reg(x) in running
      ensures Reg(x) in running ==> Denotes(rt[Plain(x)], running[Reg(x)])
    {
      if Reg(x) in running {
        assert Spells(sp[Reg(x)], Reg(x));
      }
      if Plain(x) in rt {
        var l :| l in running && sp[l] == Plain(x);
        assert Spells(sp[l], l);
      }
    }
  }

  lemma PriorText(rt: map<Key, Text>, running: map<Lhs, Expr>, sp: map<Lhs, Key>, l: Lhs)
    requires OneSpelling(sp) && RunningMeans(rt, running, sp) && l in sp
    ensures sp[l] in rt <==> l in running
  {
    if sp[l] in rt {
      var l' :| l' in running && sp[l'] == sp[l];
      KeyNamesOne(sp, l, l');
    }
  }

  /** No register computed so far is indexed by the next right-hand side. */
  lemma ApartNext(ms: seq<Micro>, m: Micro)
    requires RegistersApart(ms + [m])
    ensures Bases(m.rhs) !! Scalars(Forward(ms)).Keys
  {
    forall x | x in Scalars(Forward(ms))
      ensures x !in Bases(m.rhs)
    {
      ForwardKeys(ms, Reg(x));
      var k :| 0 <= k < |ms| && ms[k].lhs == Reg(x);
      assert (ms + [m])[k].lhs.x == x && (ms + [m])[|ms|] == m;
    }
  }

  /** The text of one more assignment. */
  function ForwardedText(rt: map<Key, Text>, guard: Text, key: Key, rhs: Text): Text {
    var s := SubstText(rhs, ScalarTexts(rt));
    if guard == [TTrue] then s else IfText(guard, s, if key in rt then rt[key] else HeldText(key))
  }

  lemma ForwardedDenotes(rt: map<Key, Text>, ms: seq<Micro>, m: Micro, sp: map<Lhs, Key>, guard: Text, rhs: Text)
    requires OneSpelling(sp) && RunningMeans(rt, Forward(ms), sp) && m.lhs in sp
    requires RegistersApart(ms + [m]) && GuardMeans(guard, m.guard) && Denotes(rhs, m.rhs)
    ensures Denotes(ForwardedText(rt, guard, sp[m.lhs], rhs), Forwarded(Forward(ms), m))
  {
    var running := Forward(ms);
    ScalarsDenote(rt, running, sp);
    ApartNext(ms, m);
    SubstDenotes(rhs, m.rhs, ScalarTexts(rt), Scalars(running));
    PriorText(rt, running, sp, m.lhs);
    HeldDenotes(sp[m.lhs], m.lhs);
    if m.guard.When? {
      IfDenotes(guard, SubstText(rhs, ScalarTexts(rt)), if sp[m.lhs] in rt then rt[sp[m.lhs]] else HeldText(sp[m.lhs]),
                m.guard.e, Subst(m.rhs, Scalars(running)), if m.lhs in running then running[m.lhs] else Held(m.lhs));
    }
  }

  lemma RunningPut(rt: map<Key, Text>, running: map<Lhs, Expr>, sp: map<Lhs, Key>, l: Lhs, s: Text, e: Expr)
    requires OneSpelling(sp) && RunningMeans(rt, running, sp) && l in sp && Denotes(s, e)
    ensures RunningMeans(rt[sp[l] := s], running[l := e], sp)
  {
    var rt', running' := rt[sp[l] := s], running[l := e];
    forall l' | l' in running'
      ensures l' in sp && sp[l'] in rt' && Denotes(rt'[sp[l']], running'[l'])
    {
      KeyNamesOne(sp, l, l');
    }
    forall k | k in rt'
      ensures exists l' :: l' in running' && sp[l'] == k
    {
      if k == sp[l] {
        assert l in running';
      } else {
        var l' :| l' in running && sp[l'] == k;
        assert l' in running';
      }
    }
  }

  lemma ApartPrefix(p: seq<Micro>, ms: seq<Micro>)
    requires RegistersApart(ms) && p <= ms
    ensures RegistersApart(p)
  {
  }

  /** The assignments up to the next one. */
  lemma NextMicro(before: seq<Micro>, these: seq<Micro>, k: nat)
    requires k < |these| && RegistersApart(before + these)
    ensures before + these[..k + 1] == before + these[..k] + [these[k]] && RegistersApart(before + these[..k] + [these[k]])
  {
    AppendTake(before, these, k);
    ApartPrefix(before + these[..k + 1], before + these);
  }

  /** One assignment: the dictionaries agree behind it as before it. */
  lemma ForwardNextText(rt: map<Key, Text>, ms: seq<Micro>, m: Micro, sp: map<Lhs, Key>, guard: Text, rhs: Text)
    requires OneSpelling(sp) && RunningMeans(rt, Forward(ms), sp) && m.lhs in sp
    requires RegistersApart(ms + [m]) && GuardMeans(guard, m.guard) && Denotes(rhs, m.rhs)
    ensures RunningMeans(rt[sp[m.lhs] := ForwardedText(rt, guard, sp[m.lhs], rhs)], Forward(ms + [m]), sp)
  {
    ForwardNext(ms, m);
    ForwardedDenotes(rt, ms, m, sp, guard, rhs);
    RunningPut(rt, Forward(ms), sp, m.lhs, ForwardedText(rt, guard, sp[m.lhs], rhs), Forwarded(Forward(ms), m));
  }

  lemma AssignText(rt: map<Key, Text>, before: seq<Micro>, these: seq<Micro>, k: nat, sp: map<Lhs, Key>, guard: Text, rhs: Text)
    requires OneSpelling(sp) && k < |these| && RunningMeans(rt, Forward(before + these[..k]), sp)
    requires RegistersApart(before + these) && these[k].lhs in sp
    requires GuardMeans(guard, these[k].guard) && Denotes(rhs, these[k].rhs)
    ensures RunningMeans(rt[sp[these[k].lhs] := ForwardedText(rt, guard, sp[these[k].lhs], rhs)], Forward(before + these[..k + 1]), sp)
  {
    NextMicro(before, these, k);
    ForwardNextText(rt, before + these[..k], these[k], sp, guard, rhs);
  }

  /** One assignment of a step. */
  lemma UpdateText(rt: map<Key, Text>, before: seq<Micro>, step: TextAction, a: Action, k: nat, sp: map<Lhs, Key>)
    requires OneSpelling(sp) && ActionMeans(step, a, sp) && k < |step.updates|
    requires RegistersApart(before + MicrosOf(a)) && RunningMeans(rt, Forward(before + MicrosOf(a)[..k]), sp)
    ensures var (key, rhs) := step.updates[k];
      RunningMeans(rt[key := ForwardedText(rt, step.guard, key, rhs)], Forward(before + MicrosOf(a)[..k + 1]), sp)
  {
    AssignText(rt, before, MicrosOf(a), k, sp, step.guard, step.updates[k].1);
  }

  lemma MicroEnds(before: seq<Micro>, a: Action)
    ensures before + MicrosOf(a)[..0] == before && MicrosOf(a)[..|a.updates|] == MicrosOf(a)
  {
  }

  /** The assignments of one step, each seeing the earlier ones through the dictionary. */
  method ForwardTexts(rt: map<Key, Text>, step: TextAction, ghost before: seq<Micro>, ghost a: Action, ghost sp: map<Lhs, Key>)
    returns (rt': map<Key, Text>)
    requires OneSpelling(sp) && ActionMeans(step, a, sp) && RunningMeans(rt, Forward(before), sp)
    requires RegistersApart(before + MicrosOf(a))
    ensures RunningMeans(rt', Forward(before + MicrosOf(a)), sp)
  {
    rt' := rt;
    MicroEnds(before, a);
    for k := 0 to |step.updates|
      invariant RunningMeans(rt', Forward(before + MicrosOf(a)[..k]), sp)
    {
      UpdateText(rt', before, step, a, k, sp);
      var (key, rhs) := step.updates[k];
      var newExpr := SubstText(rhs, ScalarTexts(rt'));
      var prior := if key in rt' then rt'[key] else HeldText(key);
      rt' := rt'[key := if step.guard == [TTrue] then newExpr else IfText(step.guard, newExpr, prior)];
    }
  }

  lemma {:induction false} MicrosPrefix(steps: seq<Action>, n: nat)
    requires n <= |steps|
    ensures Micros(steps[..n]) <= Micros(steps)
    decreases |steps|
  {
    if n < |steps| {
      MicrosPrefix(steps[..|steps| - 1], n);
      assert steps[..|steps| - 1][..n] == steps[..n];
    } else {
      assert steps[..n] == steps;
    }
  }

  lemma MicrosNext(steps: seq<Action>, i: nat)
    requires i < |steps|
    ensures Micros(steps[..i + 1]) == Micros(steps[..i]) + MicrosOf(steps[i])
  {
    assert steps[..i + 1][..i] == steps[..i];
  }

  lemma NextStep(steps: seq<Action>, i: nat)
    requires i < |steps| && RegistersApart(Micros(steps))
    ensures Micros(steps[..i + 1]) == Micros(steps[..i]) + MicrosOf(steps[i])
    ensures RegistersApart(Micros(steps[..i]) + MicrosOf(steps[i]))
  {
    MicrosNext(steps, i);
    MicrosPrefix(steps, i + 1);
    ApartPrefix(Micros(steps[..i + 1]), Micros(steps));
  }

  /** The dictionary after one more step. */
  method ForwardNextStep(rt: map<Key, Text>, step: TextAction, ghost actions: seq<Action>, ghost i: nat, ghost sp: map<Lhs, Key>)
    returns (rt': map<Key, Text>)
    requires OneSpelling(sp) && i < |actions| && ActionMeans(step, actions[i], sp)
    requires RegistersApart(Micros(actions)) && RunningMeans(rt, Forward(Micros(actions[..i])), sp)
    ensures RunningMeans(rt', Forward(Micros(actions[..i + 1])), sp)
  {
    NextStep(actions, i);
    rt' := ForwardTexts(rt, step, Micros(actions[..i]), actions[i], sp);
  }

  lemma NothingRunning(actions: seq<Action>, sp: map<Lhs, Key>)
    ensures RunningMeans(map[], Forward(Micros(actions[..0])), sp)
  {
    assert Micros(actions[..0]) == [];
  }

  /** The dictionary after all steps. */
  method ForwardAllTexts(steps: seq<TextAction>, ghost actions: seq<Action>, ghost sp: map<Lhs, Key>) returns (rt: map<Key, Text>)
    requires OneSpelling(sp) && ActionsMean(steps, actions, sp) && RegistersApart(Micros(actions))
    ensures RunningMeans(rt, Forward(Micros(actions)), sp)
  {
    rt := map[];
    NothingRunning(actions, sp);
    for i := 0 to |steps|
      invariant RunningMeans(rt, Forward(Micros(actions[..i])), sp)
    {
      rt := ForwardNextStep(rt, steps[i], actions, i, sp);
    }
    assert actions[..|actions|] == actions;
  }

  /** `_sequential_exprs` on texts */
  method SequentialTexts(steps: seq<TextAction>, ghost actions: seq<Action>, ghost sp: map<Lhs, Key>) returns (r: TextUpdates)
    requires OneSpelling(sp) && ActionsMean(steps, actions, sp) && RegistersApart(Micros(actions))
    ensures UpdatesMean(r, StepUpdates(actions), sp)
  {
    var order := OrderedKeys(steps, actions, sp);
    var running := ForwardAllTexts(steps, actions, sp);
    ghost var us := StepUpdates(actions);
    r := [];
    for k := 0 to |order|
      invariant UpdatesMean(r, us[..k], sp)
    {
      StepTextAt(running, order, actions, sp, k);
      MeanNext(r, us, sp, (order[k], running[order[k]]));
      r := r + [(order[k], running[order[k]])];
    }
    assert us[..|us|] == us;
  }

  lemma StepTextAt(rt: map<Key, Text>, order: seq<Key>, steps: seq<Action>, sp: map<Lhs, Key>, k: nat)
    requires RunningMeans(rt, Forward(Micros(steps)), sp) && KeysMean(order, FirstSeen(AllUpdates(steps)), sp) && k < |order|
    ensures var u := StepUpdates(steps)[k];
      u.0 in sp && sp[u.0] == order[k] && order[k] in rt && Denotes(rt[order[k]], u.1)
  {
    StepUpdateAt(steps, k);
  }

  lemma StepUpdateAt(steps: seq<Action>, k: nat)
    requires k < |StepUpdates(steps)|
    ensures var l := FirstSeen(AllUpdates(steps))[k];
      l in Forward(Micros(steps)) && StepUpdates(steps)[k] == (l, Forward(Micros(steps))[l])
  {
    MicroTargets(steps, FirstSeen(AllUpdates(steps))[k]);
    ForwardKeys(Micros(steps), FirstSeen(AllUpdates(steps))[k]);
  }

  // ---------------------------------------------------------------------------
  // Clocked actions
  // ---------------------------------------------------------------------------

  /** An action with its branches and its steps, as texts and as expressions. */
  datatype ClockedText = ClockedText(guard: Text, branches: seq<TextAction>, steps: seq<TextAction>, updates: TextUpdates)
  datatype Clocked = Clocked(guard: Guard, branches: seq<Action>, steps: seq<Action>, updates: Assigns)

  ghost predicate ClockedMeans(t: ClockedText, c: Clocked, sp: map<Lhs, Key>) {
    && GuardMeans(t.guard, c.guard) && ActionsMean(t.branches, c.branches, sp) && ActionsMean(t.steps, c.steps, sp)
    && UpdatesMean(t.updates, c.updates, sp) && RegistersApart(Micros(c.steps))
  }

  ghost predicate ClockedAllMean(ts: seq<ClockedText>, cs: seq<Clocked>, sp: map<Lhs, Key>) {
    |ts| == |cs| && forall k | 0 <= k < |cs| :: ClockedMeans(ts[k], cs[k], sp)
  }

  /** Branches come before steps, and both before the flat updates. */
  function OwnUpdates(c: Clocked): Assigns {
    if c.branches != [] then BranchUpdates(c.branches)
    else if c.steps != [] then StepUpdates(c.steps)
    else c.updates
  }

  function Flat(c: Clocked): Action {
    Action(c.guard, OwnUpdates(c))
  }

  function Flattened(cs: seq<Clocked>): (r: seq<Action>)
    ensures |r| == |cs|
  {
    seq(|cs|, k requires 0 <= k < |cs| => Flat(cs[k]))
  }

  /** `_action_update_exprs` on texts */
  method ActionTexts(t: ClockedText, ghost c: Clocked, ghost sp: map<Lhs, Key>) returns (r: TextUpdates)
    requires OneSpelling(sp) && ClockedMeans(t, c, sp)
    ensures UpdatesMean(r, OwnUpdates(c), sp)
  {
    if t.branches != [] {
      r := AlternationTexts(t.branches, c.branches, sp);
    } else if t.steps != [] {
      r := SequentialTexts(t.steps, c.steps, sp);
    } else {
      r := t.updates;
    }
  }

  /** A dictionary lookup and the last assignment of a left-hand side. */
  ghost predicate EntryMeans(d: map<Key, Text>, key: Key, o: Option<Expr>) {
    OptDenotes(if key in d then Some(d[key]) else None, o)
  }

  ghost predicate DictMeans(d: map<Key, Text>, us: Assigns, sp: map<Lhs, Key>) {
    forall l | l in sp :: EntryMeans(d, sp[l], LastFor(us, l))
  }

  lemma DictNext(d: map<Key, Text>, us: Assigns, sp: map<Lhs, Key>, k: nat, s: Text)
    requires OneSpelling(sp) && k < |us| && DictMeans(d, us[..k], sp) && us[k].0 in sp && Denotes(s, us[k].1)
    ensures DictMeans(d[sp[us[k].0] := s], us[..k + 1], sp)
  {
    assert us[..k + 1][..k] == us[..k];
    forall l | l in sp
      ensures EntryMeans(d[sp[us[k].0] := s], sp[l], LastFor(us[..k + 1], l))
    {
      KeyNamesOne(sp, l, us[k].0);
      assert EntryMeans(d, sp[l], LastFor(us[..k], l));
    }
  }

  /** `dict(...)` of a list of updates */
  method DictOf(ts: TextUpdates, ghost us: Assigns, ghost sp: map<Lhs, Key>) returns (d: map<Key, Text>)
    requires OneSpelling(sp) && UpdatesMean(ts, us, sp)
    ensures DictMeans(d, us, sp)
  {
    d := map[];
    for k := 0 to |ts|
      invariant DictMeans(d, us[..k], sp)
    {
      DictNext(d, us, sp, k, ts[k].1);
      d := d[ts[k].0 := ts[k].1];
    }
    assert us[..|us|] == us;
  }

  /** What each action offers: its guard, and a dictionary of its own composed updates. */
  type Offers = seq<(Text, map<Key, Text>)>

  ghost predicate OfferMeans(o: (Text, map<Key, Text>), a: Action, sp: map<Lhs, Key>) {
    GuardMeans(o.0, a.guard) && DictMeans(o.1, a.updates, sp)
  }

  ghost predicate OffersMean(os: Offers, actions: seq<Action>, sp: map<Lhs, Key>) {
    |os| == |actions| && forall k | 0 <= k < |actions| :: OfferMeans(os[k], actions[k], sp)
  }

  predicate Writes(o: (Text, map<Key, Text>), key: Key) {
    key in o.1 && o.0 != [TTrue]
  }

  lemma WriterNext(clauses: seq<Clause>, o: (Text, map<Key, Text>), actions: seq<Action>, i: nat, l: Lhs, sp: map<Lhs, Key>)
    requires i < |actions| && ClausesDenote(clauses, ActionClauses(actions[..i], l))
    requires OfferMeans(o, actions[i], sp) && l in sp
    ensures ClausesDenote(if Writes(o, sp[l]) then clauses + [(o.0, o.1[sp[l]])] else clauses, ActionClauses(actions[..i + 1], l))
  {
    assert actions[..i + 1][..i] == actions[..i];
    assert EntryMeans(o.1, sp[l], LastFor(actions[i].updates, l));
  }

  lemma DefaultNext(o: (Text, map<Key, Text>), actions: seq<Action>, i: nat, l: Lhs, sp: map<Lhs, Key>)
    requires i < |actions| && OfferMeans(o, actions[i], sp) && l in sp
    ensures sp[l] in o.1 && o.0 == [TTrue] ==> Denotes(o.1[sp[l]], ActionDefault(actions[i..], l))
    ensures sp[l] !in o.1 || o.0 != [TTrue] ==> ActionDefault(actions[i..], l) == ActionDefault(actions[i + 1..], l)
  {
    assert actions[i..][1..] == actions[i + 1..];
    assert EntryMeans(o.1, sp[l], LastFor(actions[i].updates, l));
  }

  lemma WriterEnds(actions: seq<Action>, l: Lhs)
    ensures ActionClauses(actions[..0], l) == [] && ActionDefault(actions[0..], l) == ActionDefault(actions, l)
    ensures ActionClauses(actions[..|actions|], l) == ActionClauses(actions, l)
    ensures ActionDefault(actions[|actions|..], l) == Held(l)
  {
    assert actions[..|actions|] == actions && actions[0..] == actions && actions[|actions|..] == [];
  }

  /** One more action: a clause, the default, or nothing. */
  method AddWriter(clauses: seq<Clause>, dflt: Option<Text>, o: (Text, map<Key, Text>), key: Key,
                   ghost actions: seq<Action>, ghost i: nat, ghost l: Lhs, ghost sp: map<Lhs, Key>)
    returns (clauses': seq<Clause>, dflt': Option<Text>)
    requires i < |actions| && OfferMeans(o, actions[i], sp) && l in sp && key == sp[l]
    requires ClausesDenote(clauses, ActionClauses(actions[..i], l))
    requires dflt.Some? ==> Denotes(dflt.value, ActionDefault(actions, l))
    requires dflt.None? ==> ActionDefault(actions[i..], l) == ActionDefault(actions, l)
    ensures ClausesDenote(clauses', ActionClauses(actions[..i + 1], l))
    ensures dflt'.Some? ==> Denotes(dflt'.value, ActionDefault(actions, l))
    ensures dflt'.None? ==> ActionDefault(actions[i + 1..], l) == ActionDefault(actions, l)
  {
    clauses', dflt' := clauses, dflt;
    WriterNext(clauses, o, actions, i, l, sp);
    DefaultNext(o, actions, i, l, sp);
    var (guard, updates) := o;
    if key in updates {
      if guard != [TTrue] {
        clauses' := clauses + [(guard, updates[key])];
      } else if dflt.None? {
        dflt' := Some(updates[key]);
      }
    }
  }

  method CollectWriterTexts(os: Offers, key: Key, ghost actions: seq<Action>, ghost l: Lhs, ghost sp: map<Lhs, Key>)
    returns (clauses: seq<Clause>, dflt: Option<Text>)
    requires OffersMean(os, actions, sp) && l in sp && key == sp[l]
    ensures ClausesDenote(clauses, ActionClauses(actions, l))
    ensures dflt.Some? ==> Denotes(dflt.value, ActionDefault(actions, l))
    ensures dflt.None? ==> ActionDefault(actions, l) == Held(l)
  {
    clauses, dflt := [], None;
    WriterEnds(actions, l);
    for i := 0 to |os|
      invariant ClausesDenote(clauses, ActionClauses(actions[..i], l))
      invariant dflt.Some? ==> Denotes(dflt.value, ActionDefault(actions, l))
      invariant dflt.None? ==> ActionDefault(actions[i..], l) == ActionDefault(actions, l)
    {
      assert OfferMeans(os[i], actions[i], sp);
      clauses, dflt := AddWriter(clauses, dflt, os[i], key, actions, i, l, sp);
    }
  }

  /** The next state of one left-hand side. */
  method NextText(os: Offers, key: Key, ghost actions: seq<Action>, ghost l: Lhs, ghost sp: map<Lhs, Key>) returns (rhs: Text)
    requires OneSpelling(sp) && OffersMean(os, actions, sp) && l in sp && key == sp[l]
    ensures Denotes(rhs, ActionNext(actions, l))
  {
    var clauses, dflt := CollectWriterTexts(os, key, actions, l, sp);
    HeldDenotes(key, l);
    var last := if dflt.Some? then dflt.value else HeldText(key);
    NestedIfDenotes(clauses, last, ActionClauses(actions, l), ActionDefault(actions, l));
    rhs := Translation.NestedIf(clauses, last);
  }

  method OwnText(t: ClockedText, ghost c: Clocked, ghost sp: map<Lhs, Key>) returns (r: TextAction)
    requires OneSpelling(sp) && ClockedMeans(t, c, sp)
    ensures ActionMeans(r, Flat(c), sp)
  {
    var us := ActionTexts(t, c, sp);
    r := TextAction(t.guard, us);
  }

  /** The updates of every action, composed within the action. */
  method OwnTexts(ts: seq<ClockedText>, ghost cs: seq<Clocked>, ghost sp: map<Lhs, Key>) returns (r: seq<TextAction>)
    requires OneSpelling(sp) && ClockedAllMean(ts, cs, sp)
    ensures ActionsMean(r, Flattened(cs), sp)
  {
    r := [];
    for k := 0 to |ts|
      invariant ActionsMean(r, Flattened(cs)[..k], sp)
    {
      var own := OwnText(ts[k], cs[k], sp);
      ActionsMeanNext(r, Flattened(cs), sp, own);
      r := r + [own];
    }
    assert Flattened(cs)[..|cs|] == Flattened(cs);
  }

  lemma ActionsMeanNext(ts: seq<TextAction>, actions: seq<Action>, sp: map<Lhs, Key>, t: TextAction)
    requires |ts| < |actions| && ActionsMean(ts, actions[..|ts|], sp) && ActionMeans(t, actions[|ts|], sp)
    ensures ActionsMean(ts + [t], actions[..|ts| + 1], sp)
  {
  }

  method OffersOf(ts: seq<TextAction>, ghost actions: seq<Action>, ghost sp: map<Lhs, Key>) returns (os: Offers)
    requires OneSpelling(sp) && ActionsMean(ts, actions, sp)
    ensures OffersMean(os, actions, sp)
  {
    os := [];
    for k := 0 to |ts|
      invariant |os| == k && forall i | 0 <= i < k :: OfferMeans(os[i], actions[i], sp)
    {
      assert ActionMeans(ts[k], actions[k], sp);
      var d := DictOf(ts[k].updates, actions[k].updates, sp);
      os := os + [(ts[k].guard, d)];
    }
  }

  /** The next states of the listed left-hand sides. */
  method NextTexts(order: seq<Key>, os: Offers, ghost actions: seq<Action>, ghost sp: map<Lhs, Key>) returns (r: TextUpdates)
    requires OneSpelling(sp) && OffersMean(os, actions, sp) && KeysMean(order, FirstSeen(AllUpdates(actions)), sp)
    ensures UpdatesMean(r, Composed(actions), sp)
  {
    ghost var us := Composed(actions);
    r := [];
    for k := 0 to |order|
      invariant UpdatesMean(r, us[..k], sp)
    {
      var rhs := NextText(os, order[k], actions, us[k].0, sp);
      MeanNext(r, us, sp, (order[k], rhs));
      r := r + [(order[k], rhs)];
    }
    assert us[..|us|] == us;
  }

  /** `_compose_clocked_actions` on texts: one entry per left-hand side, each the text of its next state. */
  method ComposeClockedTexts(ts: seq<ClockedText>, ghost cs: seq<Clocked>, ghost sp: map<Lhs, Key>) returns (r: TextUpdates)
    requires OneSpelling(sp) && ClockedAllMean(ts, cs, sp)
    ensures UpdatesMean(r, Composed(Flattened(cs)), sp)
  {
    ghost var actions := Flattened(cs);
    var own := OwnTexts(ts, cs, sp);
    var order := OrderedKeys(own, actions, sp);
    var offers := OffersOf(own, actions, sp);
    r := NextTexts(order, offers, actions, sp);
  }

  /** What is emitted for a left-hand side, read before the edge, is the value its winner gives it. */
  lemma ComposedTextsSelect(r: TextUpdates, cs: seq<Clocked>, sp: map<Lhs, Key>, k: nat, env: Env)
    requires UpdatesMean(r, Composed(Flattened(cs)), sp) && k < |r|
    requires GuardsDecided(Flattened(cs), env)
    ensures Parse(r[k].1).Good?
    ensures var actions, l := Flattened(cs), FirstSeen(AllUpdates(Flattened(cs)))[k];
      Eval(Parse(r[k].1).e, env) ==
        match Winner(actions, l, env)
        case Some(a) => Eval(OrElse(LastFor(a.updates, l), Held(l)), env)
        case None => Eval(Held(l), env)
  {
    StrictIsTolerant(RExpr, r[k].1, 0);
    ActionsSelect(Flattened(cs), FirstSeen(AllUpdates(Flattened(cs)))[k], env);
  }
}
