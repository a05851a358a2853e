/**
  The derivation chain on specs: LoopIntroduction installs a loop the kernel has accepted,
  ScheduleHandshakeFSM turns it into a clocked machine, Initialization adds the reset, and the
  simulator digests the result. Proved: the digested circuit is the circuit of the loop, so what
  the kernel accepted is what every simulated run delivers.
  */
module Refinement {
  import opened Expressions
  import opened Grammar
  import opened Splicing
  import opened Domain
  import opened Kernel
  import NativeKernel
  import opened Simulator
  import opened Handshake
  import opened Scheduling
  import opened Composition
  import opened Alternatives
  import opened Runs

  type Request = NativeKernel.LoopParams

  type Entries = seq<(Name, Text)>

  datatype Variable = Variable(
    name: Name, width: int, abstrct: bool, combinational: bool, clocked: bool, resetValue: Option<Text>)

  /** What LoopIntroduction leaves for the scheduler. */
  datatype LoopMark = LoopMark(init: Entries, body: Entries, variant: Text, guard: Text)

  datatype SpecAction = SpecAction(
    name: Name, guard: Text, updates: Entries, clocked: bool, combinational: bool,
    specStatement: bool, loop: Option<LoopMark>)

  datatype Spec = Spec(variables: seq<Variable>, actions: seq<SpecAction>, resetAction: Option<Name>)

  datatype FreshVar = FreshVar(name: Name, width: int, resetValue: Option<Text>)

  /** The control signals of the handshake. */
  datatype Control = Control(state: Name, done: Name, start: Name)

  const TRUE_TEXT: Text := [TTrue]

  predicate HasName(vs: seq<Variable>, x: Name) {
    exists k | 0 <= k < |vs| :: vs[k].name == x
  }

  /** The first action of that name. */
  function ActionAt(actions: seq<SpecAction>, name: Name): (r: Option<nat>)
    ensures r.Some? ==> r.value < |actions| && actions[r.value].name == name
    ensures r.None? ==> forall k | 0 <= k < |actions| :: actions[k].name != name
  {
    if actions == [] then None
    else if actions[0].name == name then Some(0)
    else match ActionAt(actions[1..], name)
      case None =>
        assert forall k | 0 < k < |actions| :: actions[k] == actions[1..][k - 1];
        None
      case Some(i) => Some(i + 1)
  }

  // ---------------------------------------------------------------------------
  // LoopIntroduction
  // ---------------------------------------------------------------------------

  function Concretize(v: Variable): Variable {
    v.(abstrct := false)
  }

  /** A fresh register is appended, or made concrete when the name is already declared. */
  function AddFresh(vs: seq<Variable>, freshVars: seq<FreshVar>): seq<Variable> {
    if freshVars == [] then vs
    else
      var before := AddFresh(vs, freshVars[..|freshVars| - 1]);
      var f := freshVars[|freshVars| - 1];
      if HasName(before, f.name) then seq(|before|, k requires 0 <= k < |before| =>
        if before[k].name == f.name then Concretize(before[k]) else before[k])
      else before + [Variable(f.name, f.width, false, false, true, f.resetValue)]
  }

  function MarkConcrete(vs: seq<Variable>, names: set<Name>): (r: seq<Variable>)
    ensures |r| == |vs|
  {
    seq(|vs|, k requires 0 <= k < |vs| =>
      if vs[k].name in names then vs[k].(abstrct := false, clocked := true) else vs[k])
  }

  function KeysOf(es: Entries): set<Name> {
    set k | 0 <= k < |es| :: es[k].0
  }

  function Installed(a: SpecAction, p: Request): SpecAction {
    a.(updates := p.body, guard := p.guard, clocked := true, specStatement := false,
       loop := Some(LoopMark(p.init, p.body, p.variant, p.guard)))
  }

  /** The spec with the accepted loop installed on action `i`. */
  function Introduced(spec: Spec, i: nat, p: Request, freshVars: seq<FreshVar>): Spec
    requires i < |spec.actions|
  {
    spec.(variables := MarkConcrete(AddFresh(spec.variables, freshVars), KeysOf(p.mapping) + KeysOf(p.body)),
          actions := spec.actions[i := Installed(spec.actions[i], p)])
  }

  /** A loop the kernel rejects, or an unknown action, leaves the spec as it was. */
  function Introduction(spec: Spec, action: Name, p: Request, freshVars: seq<FreshVar>, threshold: nat, max: nat): Spec
    requires NativeKernel.Readable(p)
  {
    match ActionAt(spec.actions, action)
    case Some(i) => if Discharge(NativeKernel.Read(p), threshold, max).ok then Introduced(spec, i, p, freshVars) else spec
    case None => spec
  }

  /** `LoopIntroduction.apply` */
  method LoopIntroduction(spec: Spec, action: Name, p: Request, freshVars: seq<FreshVar>, threshold: nat, max: nat)
    returns (r: Spec)
    requires NativeKernel.Readable(p)
    ensures r == Introduction(spec, action, p, freshVars, threshold, max)
  {
    var verdict := DischargeLoopObligations(NativeKernel.Read(p), threshold, max);
    if !verdict.ok {
      return spec;
    }
    var variables := spec.variables;
    for k := 0 to |freshVars|
      invariant variables == AddFresh(spec.variables, freshVars[..k])
    {
      assert freshVars[..k + 1][..k] == freshVars[..k];
      var f := freshVars[k];
      if HasName(variables, f.name) {
        variables := seq(|variables|, k requires 0 <= k < |variables| =>
          if variables[k].name == f.name then Concretize(variables[k]) else variables[k]);
      } else {
        variables := variables + [Variable(f.name, f.width, false, false, true, f.resetValue)];
      }
    }
    assert freshVars[..|freshVars|] == freshVars;
    var target := ActionAt(spec.actions, action);
    if target.None? {
      return spec;
    }
    r := spec.(actions := spec.actions[target.value := Installed(spec.actions[target.value], p)]);
    r := r.(variables := MarkConcrete(variables, KeysOf(p.mapping) + KeysOf(p.body)));
  }

  /** Installing a loop always changes the spec, so an unchanged spec is the kernel's refusal. */
  lemma InstallingChanges(spec: Spec, i: nat, p: Request, freshVars: seq<FreshVar>)
    requires i < |spec.actions| && spec.actions[i].loop == None
    ensures Introduced(spec, i, p, freshVars) != spec
  {
    assert Introduced(spec, i, p, freshVars).actions[i].loop.Some?;
  }

  // ---------------------------------------------------------------------------
  // ScheduleHandshakeFSM
  // ---------------------------------------------------------------------------

  function Find(es: Entries, x: Name): Option<Text> {
    if es == [] then None
    else if es[|es| - 1].0 == x then Some(es[|es| - 1].1)
    else Find(es[..|es| - 1], x)
  }

  predicate DistinctKeys(es: Entries) {
    forall i, j | 0 <= i < j < |es| :: es[i].0 != es[j].0
  }

  function Dict(es: Entries): map<Name, Text> {
    if es == [] then map[] else Dict(es[..|es| - 1])[es[|es| - 1].0 := es[|es| - 1].1]
  }

  /** Only the control names matter to the emitted texts. */
  function Shell(ctl: Control): Machine {
    Machine(ctl.state, ctl.done, ctl.start, [], Const(0))
  }

  predicate InitsKnown(init: Entries, body: Entries) {
    forall k | 0 <= k < |body| :: Find(init, body[k].0).Some?
  }

  function RegisterText(ctl: Control, init: Entries, u: (Name, Text)): Text
    requires Find(init, u.0).Some?
  {
    var (pairs, dflt) := SplitChain(u.1);
    RegNextText(Shell(ctl), u.0, Find(init, u.0).value, pairs, dflt)
  }

  function RegisterTexts(ctl: Control, init: Entries, body: Entries): (r: Entries)
    requires InitsKnown(init, body)
    ensures |r| == |body|
  {
    seq(|body|, k requires 0 <= k < |body| => (body[k].0, RegisterText(ctl, init, body[k])))
  }

  function StateText(ctl: Control, guard: Text, body: Entries): Text {
    StateNextText(Shell(ctl), SubstText(guard, Dict(body)))
  }

  function ScheduledAction(ctl: Control, a: SpecAction, init: Entries): SpecAction
    requires InitsKnown(init, a.updates)
  {
    a.(updates := [(ctl.state, StateText(ctl, a.guard, a.updates))] + RegisterTexts(ctl, init, a.updates),
       guard := TRUE_TEXT, clocked := true, loop := None)
  }

  function DoneAction(ctl: Control): SpecAction {
    SpecAction("DoneFlag", TRUE_TEXT, [(ctl.done, EqText(ctl.state, 2))], false, true, false, None)
  }

  function Declared(vs: seq<Variable>, v: Variable): seq<Variable> {
    if HasName(vs, v.name) then vs else vs + [v]
  }

  function ControlDeclared(vs: seq<Variable>, ctl: Control): seq<Variable> {
    Declared(Declared(vs, Variable(ctl.state, 2, false, false, true, Some([TNum(0)]))),
             Variable(ctl.done, 1, false, true, false, None))
  }

  /** `ScheduleHandshakeFSM.apply` as a function: `None` when a register has no load value. */
  function Schedule(spec: Spec, action: Name, ctl: Control): Option<Spec> {
    match ActionAt(spec.actions, action)
    case None => Some(spec)
    case Some(i) =>
      var a := spec.actions[i];
      if a.loop.None? then Some(spec)
      else if !InitsKnown(a.loop.value.init, a.updates) then None
      else Some(spec.(actions := spec.actions[i := ScheduledAction(ctl, a, a.loop.value.init)] + [DoneAction(ctl)],
                      variables := ControlDeclared(spec.variables, ctl)))
  }

  /** The chain is folded from its last segment inwards. */
  method BuildChain(segs: seq<Clause>, hold: Text) returns (chain: Text)
    ensures chain == JoinChain(segs, hold)
  {
    chain := hold;
    var k := |segs|;
    while k > 0
      invariant 0 <= k <= |segs|
      invariant chain == JoinChain(segs[k..], hold)
    {
      k := k - 1;
      assert segs[k..][1..] == segs[k + 1..];
      chain := IfText(segs[k].0, segs[k].1, chain);
    }
    assert segs[0..] == segs;
  }

  /** The updates of the scheduled action, register by register; `None` on a missing load value. */
  method ScheduleUpdates(ctl: Control, guard: Text, init: Entries, body: Entries) returns (r: Option<Entries>)
    ensures r.Some? <==> InitsKnown(init, body)
    ensures r.Some? ==> r.value == [(ctl.state, StateText(ctl, guard, body))] + RegisterTexts(ctl, init, body)
  {
    var updates := [(ctl.state, StateText(ctl, guard, body))];
    ghost var head := updates;
    for k := 0 to |body|
      invariant InitsKnown(init, body[..k])
      invariant updates == head + RegisterTexts(ctl, init, body[..k])
    {
      var (x, text) := body[k];
      var load := Find(init, x);
      if load.None? {
        return None;
      }
      var pairs, dflt := ParseIfChain(text);
      var segs: seq<Clause> := [(LoadText(Shell(ctl)), load.value)];
      for j := 0 to |pairs|
        invariant segs == [(LoadText(Shell(ctl)), load.value)] +
          seq(j, i requires 0 <= i < j => (BusyAnd(Shell(ctl), pairs[i].0), pairs[i].1))
      {
        segs := segs + [(BusyAnd(Shell(ctl), pairs[j].0), pairs[j].1)];
      }
      segs := segs + [(EqText(ctl.state, 1), dflt)];
      assert segs == Segments(Shell(ctl), load.value, pairs, dflt);
      var chain := BuildChain(segs, [TId(x)]);
      updates := updates + [(x, chain)];
      assert body[..k + 1] == body[..k] + [body[k]];
      assert RegisterTexts(ctl, init, body[..k + 1]) == RegisterTexts(ctl, init, body[..k]) + [(x, chain)];
    }
    assert body[..|body|] == body;
    r := Some(updates);
  }

  method ScheduleHandshakeFSM(spec: Spec, action: Name, ctl: Control) returns (r: Option<Spec>)
    ensures r == Schedule(spec, action, ctl)
  {
    var i := ActionAt(spec.actions, action);
    if i.None? || spec.actions[i.value].loop.None? {
      return Some(spec);
    }
    var a := spec.actions[i.value];
    var updates := ScheduleUpdates(ctl, a.guard, a.loop.value.init, a.updates);
    if updates.None? {
      return None;
    }
    a := a.(updates := updates.value, guard := TRUE_TEXT, clocked := true, loop := None);
    var variables := spec.variables;
    if !HasName(variables, ctl.state) {
      variables := variables + [Variable(ctl.state, 2, false, false, true, Some([TNum(0)]))];
    }
    var actions := spec.actions[i.value := a] + [DoneAction(ctl)];
    if !HasName(variables, ctl.done) {
      variables := variables + [Variable(ctl.done, 1, false, true, false, None)];
    }
    r := Some(spec.(actions := actions, variables := variables));
  }

  // ---------------------------------------------------------------------------
  // Initialization
  // ---------------------------------------------------------------------------

  predicate NeverReset(vs: seq<Variable>, x: Name) {
    exists k | 0 <= k < |vs| :: vs[k].name == x && vs[k].combinational
  }

  function ResetUpdates(vs: seq<Variable>, values: Entries): Entries {
    if values == [] then []
    else
      var u := values[|values| - 1];
      ResetUpdates(vs, values[..|values| - 1]) + (if NeverReset(vs, u.0) then [] else [u])
  }

  function Reset(vs: seq<Variable>, values: Entries): (r: seq<Variable>)
    ensures |r| == |vs|
  {
    seq(|vs|, k requires 0 <= k < |vs| =>
      var v := Find(values, vs[k].name);
      if v.Some? && !NeverReset(vs, vs[k].name) then vs[k].(resetValue := v) else vs[k])
  }

  function Initialize(spec: Spec, resetName: Name, values: Entries): Spec {
    var action := SpecAction(resetName, [TId("rst"), TEq, TTrue], ResetUpdates(spec.variables, values),
                             false, false, false, None);
    spec.(variables := Reset(spec.variables, values),
          actions := if ActionAt(spec.actions, resetName).Some? then spec.actions else spec.actions + [action],
          resetAction := Some(resetName))
  }

  // ---------------------------------------------------------------------------
  // What the simulator digests
  // ---------------------------------------------------------------------------

  predicate EntriesParse(es: Entries) {
    forall k | 0 <= k < |es| :: Parse(es[k].1).Good?
  }

  predicate ActionParses(a: SpecAction) {
    EntriesParse(a.updates) && Parse(a.guard).Good?
  }

  predicate ActionsParse(actions: seq<SpecAction>) {
    forall k | 0 <= k < |actions| :: ActionParses(actions[k])
  }

  predicate SpecParses(spec: Spec) {
    ActionsParse(spec.actions)
  }

  function ReadEntry(u: (Name, Text)): (Lhs, Expr)
    requires Parse(u.1).Good?
  {
    (Reg(u.0), Parse(u.1).e)
  }

  function ReadEntries(es: Entries): (r: Assigns)
    requires EntriesParse(es)
    ensures |r| == |es|
  {
    seq(|es|, k requires 0 <= k < |es| => ReadEntry(es[k]))
  }

  function ReadAction(a: SpecAction): Action
    requires ActionParses(a)
  {
    Action(if a.guard == TRUE_TEXT then Always else When(Parse(a.guard).e), ReadEntries(a.updates))
  }

  /** The clocked actions other than the reset action. */
  function ClockedActions(actions: seq<SpecAction>, reset: Option<Name>): seq<Action>
    requires ActionsParse(actions)
  {
    if actions == [] then []
    else
      var a := actions[|actions| - 1];
      ClockedActions(actions[..|actions| - 1], reset) +
      (if a.clocked && Some(a.name) != reset then [ReadAction(a)] else [])
  }

  /** The combinational definitions outside the reset action. */
  function CombDefs(actions: seq<SpecAction>, reset: Option<Name>): Assigns
    requires ActionsParse(actions)
  {
    if actions == [] then []
    else
      var a := actions[|actions| - 1];
      CombDefs(actions[..|actions| - 1], reset) +
      (if a.combinational && Some(a.name) != reset then ReadEntries(a.updates) else [])
  }

  function AsUpdates(us: Assigns): (r: Updates)
    ensures |r| == |us|
  {
    seq(|us|, k requires 0 <= k < |us| => (us[k].0.Base(), us[k].1))
  }

  function WidthsOf(vs: seq<Variable>, resetPort: Name): map<Name, int> {
    if vs == [] then map[]
    else
      var v := vs[|vs| - 1];
      var before := WidthsOf(vs[..|vs| - 1], resetPort);
      if v.name == resetPort || v.name == CLK then before else before[v.name := if v.width == 0 then 1 else v.width]
  }

  function RegistersOf(vs: seq<Variable>, resetPort: Name): set<Name> {
    set k | 0 <= k < |vs| && !vs[k].combinational && vs[k].name != resetPort && vs[k].name != CLK :: vs[k].name
  }

  /** `SpecSimulator.__init__` */
  function Digest(spec: Spec, resetPort: Name, activeLow: bool): Config
    requires SpecParses(spec)
  {
    var reset := match spec.resetAction
      case None => []
      case Some(n) => match ActionAt(spec.actions, n) case None => [] case Some(i) => ReadEntries(spec.actions[i].updates);
    Config(resetPort, activeLow, WidthsOf(spec.variables, resetPort), RegistersOf(spec.variables, resetPort),
           Composed(ClockedActions(spec.actions, spec.resetAction)),
           AsUpdates(CombDefs(spec.actions, spec.resetAction)), reset)
  }

  // ---------------------------------------------------------------------------
  // The machine a request describes
  // ---------------------------------------------------------------------------

  /** Well-bracketed text of an expression, all of it. */
  predicate Strict(s: Text) {
    ParseExpr(true, s, 0).Good? && ParseExpr(true, s, 0).next == |s|
  }

  lemma StrictParse(s: Text)
    requires Strict(s)
    ensures Parse(s).Good? && Denotes(s, Parse(s).e)
  {
    StrictIsTolerant(RExpr, s, 0);
  }

  predicate StrictClauses(pairs: seq<Clause>) {
    forall k | 0 <= k < |pairs| :: Strict(pairs[k].0) && Strict(pairs[k].1)
  }

  /** A body that comes apart into expressions. */
  predicate BodyText(s: Text) {
    StrictClauses(SplitChain(s).0) && Strict(SplitChain(s).1)
  }

  /** Every piece the rules splice is the text of an expression, and loads and bodies name the same registers once. */
  predicate WellTexted(p: Request) {
    && Strict(p.guard)
    && (forall k | 0 <= k < |p.init| :: Strict(p.init[k].1))
    && (forall k | 0 <= k < |p.body| :: BodyText(p.body[k].1))
    && DistinctKeys(p.init) && DistinctKeys(p.body) && KeysOf(p.init) == KeysOf(p.body)
  }

  lemma {:induction false} FindKnown(es: Entries, x: Name)
    ensures x in KeysOf(es) <==> Find(es, x).Some?
    ensures Find(es, x).Some? ==> (x, Find(es, x).value) in es
    decreases |es|
  {
    if es != [] {
      var n := |es| - 1;
      FindKnown(es[..n], x);
      if x in KeysOf(es) {
        var k :| 0 <= k < |es| && es[k].0 == x;
        assert k < n ==> es[..n][k].0 == x;
      }
      if x in KeysOf(es[..n]) {
        var k :| 0 <= k < n && es[..n][k].0 == x;
        assert es[k].0 == x;
      }
      assert es[n].0 in KeysOf(es);
    }
  }

  lemma {:induction false} FindDistinct(es: Entries, k: nat)
    requires DistinctKeys(es) && k < |es|
    ensures Find(es, es[k].0) == Some(es[k].1)
    decreases |es|
  {
    if k < |es| - 1 {
      FindDistinct(es[..|es| - 1], k);
    }
  }

  lemma LoadsKnown(p: Request)
    requires WellTexted(p)
    ensures InitsKnown(p.init, p.body)
    ensures forall k | 0 <= k < |p.body| :: Strict(Find(p.init, p.body[k].0).value)
  {
    forall k | 0 <= k < |p.body|
      ensures Find(p.init, p.body[k].0).Some? && Strict(Find(p.init, p.body[k].0).value)
    {
      assert p.body[k].0 in KeysOf(p.body);
      FindKnown(p.init, p.body[k].0);
      var i :| 0 <= i < |p.init| && p.init[i] == (p.body[k].0, Find(p.init, p.body[k].0).value);
    }
  }

  function PairExprs(pairs: seq<Clause>): (r: seq<(Expr, Expr)>)
    requires StrictClauses(pairs)
    ensures |r| == |pairs|
  {
    seq(|pairs|, k requires 0 <= k < |pairs| => (ParseExpr(true, pairs[k].0, 0).e, ParseExpr(true, pairs[k].1, 0).e))
  }

  function RegisterOf(p: Request, k: nat): LoopReg
    requires WellTexted(p) && k < |p.body|
  {
    LoadsKnown(p);
    LoopReg(p.body[k].0, ParseExpr(true, Find(p.init, p.body[k].0).value, 0).e,
            PairExprs(SplitChain(p.body[k].1).0), ParseExpr(true, SplitChain(p.body[k].1).1, 0).e)
  }

  function RegistersIn(p: Request): (r: seq<LoopReg>)
    requires WellTexted(p)
    ensures |r| == |p.body|
  {
    seq(|p.body|, k requires 0 <= k < |p.body| => RegisterOf(p, k))
  }

  function MachineOf(ctl: Control, p: Request): Machine
    requires WellTexted(p)
  {
    Machine(ctl.state, ctl.done, ctl.start, RegistersIn(p), ParseExpr(true, p.guard, 0).e)
  }

  lemma ClausesStrict(pairs: seq<Clause>)
    requires StrictClauses(pairs)
    ensures ClausesDenote(pairs, PairExprs(pairs))
  {
  }

  /** A body text is the text of its register's body expression. */
  lemma BodyDenotes(p: Request, k: nat)
    requires WellTexted(p) && k < |p.body|
    ensures Denotes(p.body[k].1, BodyOf(RegisterOf(p, k)))
    ensures Parse(p.body[k].1) == Good(BodyOf(RegisterOf(p, k)), |p.body[k].1|)
  {
    var s := p.body[k].1;
    assert BodyText(s);
    ClausesStrict(SplitChain(s).0);
    SplitDenotes(s, RegisterOf(p, k).pairs, RegisterOf(p, k).dflt);
    StrictIsTolerant(RExpr, s, 0);
  }

  lemma MachineNames(ctl: Control, p: Request)
    requires WellTexted(p)
    ensures RegNames(MachineOf(ctl, p)) == KeysOf(p.body)
    ensures forall i, j | 0 <= i < j < |p.body| :: MachineOf(ctl, p).regs[i].name != MachineOf(ctl, p).regs[j].name
  {
    var m := MachineOf(ctl, p);
    assert forall k | 0 <= k < |p.body| :: m.regs[k].name == p.body[k].0;
    forall x | x in KeysOf(p.body)
      ensures x in RegNames(m)
    {
      var k :| 0 <= k < |p.body| && p.body[k].0 == x;
      assert m.regs[k].name == x;
    }
  }

  /** The circuit's machine schedules exactly the loop the kernel was asked about. */
  lemma RequestSchedules(ctl: Control, p: Request)
    requires WellTexted(p) && NativeKernel.Readable(p)
    ensures Schedules(MachineOf(ctl, p), NativeKernel.Read(p))
  {
    var m, d := MachineOf(ctl, p), NativeKernel.Read(p);
    MachineNames(ctl, p);
    StrictParse(p.guard);
    StrictIsTolerant(RExpr, p.guard, 0);
    forall k | 0 <= k < |p.body|
      ensures d.body[k] == BodyUpdates(m)[k]
    {
      BodyDenotes(p, k);
    }
    assert d.body == BodyUpdates(m);
    RequestLoads(ctl, p);
  }

  lemma RequestLoads(ctl: Control, p: Request)
    requires WellTexted(p) && NativeKernel.Readable(p)
    ensures var m, d := MachineOf(ctl, p), NativeKernel.Read(p);
      && DistinctTargets(d.init) && Targets(d.init) == KeysOf(p.init)
      && forall k | 0 <= k < |m.regs| :: (m.regs[k].name, m.regs[k].init) in d.init
  {
    var m, d := MachineOf(ctl, p), NativeKernel.Read(p);
    assert forall k | 0 <= k < |p.init| :: d.init[k].0 == p.init[k].0;
    forall x | x in KeysOf(p.init)
      ensures x in Targets(d.init)
    {
      var k :| 0 <= k < |p.init| && p.init[k].0 == x;
      assert d.init[k].0 == x;
    }
    LoadsKnown(p);
    forall k | 0 <= k < |m.regs|
      ensures (m.regs[k].name, m.regs[k].init) in d.init
    {
      var load := Find(p.init, p.body[k].0).value;
      FindKnown(p.init, p.body[k].0);
      var i :| 0 <= i < |p.init| && p.init[i] == (p.body[k].0, load);
      StrictIsTolerant(RExpr, load, 0);
      assert d.init[i] == (m.regs[k].name, m.regs[k].init);
    }
  }

  // ---------------------------------------------------------------------------
  // The scheduled texts are the machine's expressions
  // ---------------------------------------------------------------------------

  lemma RegisterTextDenotes(ctl: Control, p: Request, k: nat)
    requires WellTexted(p) && k < |p.body| && Find(p.init, p.body[k].0).Some?
    ensures Denotes(RegisterText(ctl, p.init, p.body[k]), RegNext(MachineOf(ctl, p), RegisterOf(p, k)))
  {
    var m, r := MachineOf(ctl, p), RegisterOf(p, k);
    var load := Find(p.init, p.body[k].0).value;
    var (pairs, dflt) := SplitChain(p.body[k].1);
    LoadsKnown(p);
    assert BodyText(p.body[k].1);
    ClausesStrict(pairs);
    RegNextDenotes(m, r, load, pairs, dflt);
    assert Segments(m, load, pairs, dflt) == Segments(Shell(ctl), load, pairs, dflt);
  }

  lemma {:induction false} DictIs(es: Entries, x: Name)
    ensures x in Dict(es) <==> Find(es, x).Some?
    ensures x in Dict(es) ==> Dict(es)[x] == Find(es, x).value
    decreases |es|
  {
    if es != [] {
      DictIs(es[..|es| - 1], x);
    }
  }

  lemma BodiesDenote(ctl: Control, p: Request)
    requires WellTexted(p)
    ensures TextsDenote(Dict(p.body), BodyMap(MachineOf(ctl, p)))
  {
    var m, texts := MachineOf(ctl, p), Dict(p.body);
    MachineNames(ctl, p);
    forall x: Name
      ensures x in texts <==> x in BodyMap(m)
      ensures x in texts ==> Denotes(texts[x], BodyMap(m)[x])
    {
      DictIs(p.body, x);
      FindKnown(p.body, x);
      if x in texts {
        var k :| 0 <= k < |p.body| && p.body[k] == (x, texts[x]);
        BodyForIs(m.regs, k);
        BodyDenotes(p, k);
      }
    }
  }

  lemma StateTextDenotes(ctl: Control, p: Request)
    requires WellTexted(p) && Bases(ParseExpr(true, p.guard, 0).e) == {}
    ensures Denotes(StateText(ctl, p.guard, p.body), StateNext(MachineOf(ctl, p)))
  {
    var m := MachineOf(ctl, p);
    BodiesDenote(ctl, p);
    SubstDenotes(p.guard, m.guard, Dict(p.body), BodyMap(m));
    StateNextDenotes(m, SubstText(p.guard, Dict(p.body)));
  }

  lemma DenotedParse(s: Text, e: Expr)
    requires Denotes(s, e)
    ensures Parse(s) == Good(e, |s|)
  {
    StrictIsTolerant(RExpr, s, 0);
  }

  lemma StateEntry(ctl: Control, p: Request)
    requires WellTexted(p) && Bases(ParseExpr(true, p.guard, 0).e) == {}
    ensures Parse(StateText(ctl, p.guard, p.body)).Good?
    ensures ReadEntry((ctl.state, StateText(ctl, p.guard, p.body))) == ClockedUpdates(MachineOf(ctl, p))[0]
  {
    StateTextDenotes(ctl, p);
    DenotedParse(StateText(ctl, p.guard, p.body), StateNext(MachineOf(ctl, p)));
  }

  lemma RegisterEntry(ctl: Control, p: Request, k: nat)
    requires WellTexted(p) && k < |p.body| && Find(p.init, p.body[k].0).Some?
    ensures Parse(RegisterText(ctl, p.init, p.body[k])).Good?
    ensures ReadEntry((p.body[k].0, RegisterText(ctl, p.init, p.body[k]))) == ClockedUpdates(MachineOf(ctl, p))[k + 1]
  {
    RegisterTextDenotes(ctl, p, k);
    DenotedParse(RegisterText(ctl, p.init, p.body[k]), RegNext(MachineOf(ctl, p), RegisterOf(p, k)));
  }

  /** Read back, the updates of the scheduled action are the clocked updates of the machine. */
  lemma ScheduledReads(ctl: Control, p: Request, a: SpecAction)
    requires WellTexted(p) && Bases(ParseExpr(true, p.guard, 0).e) == {}
    requires a.updates == p.body && a.guard == p.guard && InitsKnown(p.init, p.body)
    ensures var us := ScheduledAction(ctl, a, p.init).updates;
      EntriesParse(us) && ReadEntries(us) == ClockedUpdates(MachineOf(ctl, p))
  {
    var us := ScheduledAction(ctl, a, p.init).updates;
    StateEntry(ctl, p);
    RegisterEntries(ctl, p);
    EntriesJoin(us, ClockedUpdates(MachineOf(ctl, p)), RegisterTexts(ctl, p.init, p.body));
  }

  lemma RegisterEntries(ctl: Control, p: Request)
    requires WellTexted(p) && InitsKnown(p.init, p.body)
    ensures var es, cs := RegisterTexts(ctl, p.init, p.body), ClockedUpdates(MachineOf(ctl, p));
      |cs| == |es| + 1 && forall k | 0 <= k < |es| :: Parse(es[k].1).Good? && ReadEntry(es[k]) == cs[k + 1]
  {
    forall k | 0 <= k < |p.body|
      ensures var es, cs := RegisterTexts(ctl, p.init, p.body), ClockedUpdates(MachineOf(ctl, p));
        Parse(es[k].1).Good? && ReadEntry(es[k]) == cs[k + 1]
    {
      RegisterEntry(ctl, p, k);
    }
  }

  lemma EntriesJoin(us: Entries, cs: Assigns, es: Entries)
    requires us != [] && us == [us[0]] + es && |cs| == |us|
    requires Parse(us[0].1).Good? && ReadEntry(us[0]) == cs[0]
    requires forall k | 0 <= k < |es| :: Parse(es[k].1).Good? && ReadEntry(es[k]) == cs[k + 1]
    ensures EntriesParse(us) && ReadEntries(us) == cs
  {
    forall k | 0 <= k < |us|
      ensures Parse(us[k].1).Good? && ReadEntry(us[k]) == cs[k]
    {
      if k > 0 {
        assert us[k] == es[k - 1];
      }
    }
  }

  // ---------------------------------------------------------------------------
  // The derived spec and its circuit
  // ---------------------------------------------------------------------------

  /** What the three rules need to know besides the request. */
  datatype Plan = Plan(ctl: Control, freshVars: seq<FreshVar>, resetName: Name, resets: Entries)

  predicate OneStatement(spec: Spec, plan: Plan) {
    && |spec.actions| == 1 && !spec.actions[0].combinational
    && plan.resetName != spec.actions[0].name && plan.resetName != "DoneFlag"
  }

  /** The spec after LoopIntroduction, ScheduleHandshakeFSM and Initialization. */
  function Derived(spec: Spec, p: Request, plan: Plan): Spec
    requires OneStatement(spec, plan) && WellTexted(p)
  {
    LoadsKnown(p);
    var s1 := Introduced(spec, 0, p, plan.freshVars);
    var s2 := Schedule(s1, spec.actions[0].name, plan.ctl).value;
    Initialize(s2, plan.resetName, plan.resets)
  }

  lemma OneScheduled(spec: Spec, ctl: Control, a: SpecAction)
    requires spec.actions == [a] && a.loop.Some? && InitsKnown(a.loop.value.init, a.updates)
    ensures Schedule(spec, a.name, ctl) == Some(spec.(
      actions := [ScheduledAction(ctl, a, a.loop.value.init), DoneAction(ctl)], variables := ControlDeclared(spec.variables, ctl)))
  {
    assert ActionAt(spec.actions, a.name) == Some(0);
    var sa := ScheduledAction(ctl, a, a.loop.value.init);
    assert spec.actions[0 := sa] + [DoneAction(ctl)] == [sa, DoneAction(ctl)];
  }

  lemma DerivedActions(spec: Spec, p: Request, plan: Plan)
    requires OneStatement(spec, plan) && WellTexted(p)
    ensures InitsKnown(p.init, p.body)
    ensures var r := Derived(spec, p, plan);
      && ThreeActions(r.actions, Installed(spec.actions[0], p), p, plan, DerivedVars(spec, p, plan))
      && r.resetAction == Some(plan.resetName)
      && r.variables == Reset(DerivedVars(spec, p, plan), plan.resets)
  {
    LoadsKnown(p);
    var s1 := Introduced(spec, 0, p, plan.freshVars);
    assert s1.actions == [Installed(spec.actions[0], p)];
    OneScheduled(s1, plan.ctl, Installed(spec.actions[0], p));
    var s2 := Schedule(s1, spec.actions[0].name, plan.ctl).value;
    assert s2.actions == [ScheduledAction(plan.ctl, Installed(spec.actions[0], p), p.init), DoneAction(plan.ctl)];
  }

  /** The variables before the reset values are filled in. */
  function DerivedVars(spec: Spec, p: Request, plan: Plan): seq<Variable> {
    ControlDeclared(MarkConcrete(AddFresh(spec.variables, plan.freshVars), KeysOf(p.mapping) + KeysOf(p.body)), plan.ctl)
  }

  predicate PlainResets(values: Entries) {
    forall k | 0 <= k < |values| :: |values[k].1| == 1 && values[k].1[0].TNum?
  }

  lemma {:induction false} ResetUpdatesPlain(vs: seq<Variable>, values: Entries)
    requires PlainResets(values)
    ensures PlainResets(ResetUpdates(vs, values)) && EntriesParse(ResetUpdates(vs, values))
    decreases |values|
  {
    if values != [] {
      ResetUpdatesPlain(vs, values[..|values| - 1]);
      NumberText(values[|values| - 1].1[0].n);
      var u := values[|values| - 1];
      assert u.1 == [TNum(u.1[0].n)];
      DenotedParse(u.1, Const(u.1[0].n));
    }
  }

  lemma GuardsParse()
    ensures Parse(TRUE_TEXT) == Good(Const(1), 1)
    ensures Parse([TId("rst"), TEq, TTrue]).Good?
  {
    PrimaryDenotes(TRUE_TEXT, Const(1), CMP + 1);
    OperandDenotes(TRUE_TEXT, Const(1), CMP + 1);
    DenotedParse(TRUE_TEXT, Const(1));
    NameDenotes("rst", CMP + 1);
    BinDenotes(CMP, [TId("rst")], TEq, TRUE_TEXT, Var("rst"), Const(1));
    assert [TId("rst")] + [TEq] + TRUE_TEXT == [TId("rst"), TEq, TTrue];
    OperandDenotes([TId("rst"), TEq, TTrue], Bin(Eq, Var("rst"), Const(1)), CMP);
    DenotedParse([TId("rst"), TEq, TTrue], Bin(Eq, Var("rst"), Const(1)));
  }

  lemma DoneParses(ctl: Control)
    ensures ActionParses(DoneAction(ctl))
    ensures ReadEntries(DoneAction(ctl).updates) == [(Reg(ctl.done), Bin(Eq, Var(ctl.state), Const(2)))]
  {
    EqTextDenotes(ctl.state, 2);
    DenotedParse(EqText(ctl.state, 2), Bin(Eq, Var(ctl.state), Const(2)));
    GuardsParse();
  }

  lemma ScheduledParses(ctl: Control, p: Request, a: SpecAction)
    requires WellTexted(p) && Bases(ParseExpr(true, p.guard, 0).e) == {}
    requires a.updates == p.body && a.guard == p.guard && InitsKnown(p.init, p.body)
    ensures ActionParses(ScheduledAction(ctl, a, p.init))
    ensures ReadAction(ScheduledAction(ctl, a, p.init)) == Action(Always, ClockedUpdates(MachineOf(ctl, p)))
  {
    ScheduledReads(ctl, p, a);
    GuardsParse();
  }

  lemma ResetParses(a: SpecAction, vs: seq<Variable>, values: Entries)
    requires PlainResets(values) && a.updates == ResetUpdates(vs, values) && a.guard == [TId("rst"), TEq, TTrue]
    ensures ActionParses(a)
  {
    ResetUpdatesPlain(vs, values);
    GuardsParse();
  }

  /** The three actions of a derived spec. */
  ghost predicate ThreeActions(actions: seq<SpecAction>, a: SpecAction, p: Request, plan: Plan, vs: seq<Variable>)
    requires InitsKnown(p.init, a.updates)
  {
    && |actions| == 3
    && actions[0] == ScheduledAction(plan.ctl, a, p.init)
    && actions[1] == DoneAction(plan.ctl)
    && actions[2].name == plan.resetName && !actions[2].clocked && !actions[2].combinational
    && actions[2].guard == [TId("rst"), TEq, TTrue] && actions[2].updates == ResetUpdates(vs, plan.resets)
  }

  lemma ThreeParse(actions: seq<SpecAction>, a: SpecAction, p: Request, plan: Plan, vs: seq<Variable>)
    requires WellTexted(p) && Bases(ParseExpr(true, p.guard, 0).e) == {} && PlainResets(plan.resets)
    requires a.updates == p.body && a.guard == p.guard && InitsKnown(p.init, p.body)
    requires ThreeActions(actions, a, p, plan, vs)
    ensures ActionsParse(actions)
  {
    ScheduledParses(plan.ctl, p, a);
    DoneParses(plan.ctl);
    ResetParses(actions[2], vs, plan.resets);
  }

  lemma DerivedParses(spec: Spec, p: Request, plan: Plan)
    requires OneStatement(spec, plan) && WellTexted(p) && Bases(ParseExpr(true, p.guard, 0).e) == {}
    requires PlainResets(plan.resets)
    ensures SpecParses(Derived(spec, p, plan))
  {
    DerivedActions(spec, p, plan);
    ThreeParse(Derived(spec, p, plan).actions, Installed(spec.actions[0], p), p, plan, DerivedVars(spec, p, plan));
  }

  lemma MachineLhs(ctl: Control, p: Request)
    requires WellTexted(p)
    ensures var us := ClockedUpdates(MachineOf(ctl, p));
      && |us| == |p.body| + 1 && us[0].0 == Reg(ctl.state)
      && forall k | 0 <= k < |p.body| :: us[k + 1].0 == Reg(p.body[k].0)
  {
  }

  lemma MachineLhsDistinct(ctl: Control, p: Request)
    requires WellTexted(p) && ctl.state !in KeysOf(p.body)
    ensures DistinctLhs(ClockedUpdates(MachineOf(ctl, p)))
  {
    MachineLhs(ctl, p);
    var us := ClockedUpdates(MachineOf(ctl, p));
    forall i, j | 0 <= i < j < |us|
      ensures us[i].0 != us[j].0
    {
      assert us[j].0 == Reg(p.body[j - 1].0) && p.body[j - 1].0 in KeysOf(p.body);
      if i > 0 {
        assert us[i].0 == Reg(p.body[i - 1].0);
      }
    }
  }

  /** The clocked part of the digest is the machine's. */
  lemma DerivedClocked(spec: Spec, p: Request, plan: Plan)
    requires OneStatement(spec, plan) && WellTexted(p) && Bases(ParseExpr(true, p.guard, 0).e) == {}
    requires PlainResets(plan.resets) && plan.ctl.state !in KeysOf(p.body)
    ensures SpecParses(Derived(spec, p, plan))
    ensures var r := Derived(spec, p, plan);
      Composed(ClockedActions(r.actions, r.resetAction)) == ClockedUpdates(MachineOf(plan.ctl, p))
  {
    var r := Derived(spec, p, plan);
    DerivedActions(spec, p, plan);
    DerivedParses(spec, p, plan);
    ScheduledParses(plan.ctl, p, Installed(spec.actions[0], p));
    MachineLhsDistinct(plan.ctl, p);
    ClockedOfThree(r.actions, r.resetAction);
    SingleActionUnchanged(ClockedUpdates(MachineOf(plan.ctl, p)));
  }

  lemma ClockedOfThree(actions: seq<SpecAction>, reset: Option<Name>)
    requires |actions| == 3
    requires ActionsParse(actions)
    requires actions[0].clocked && Some(actions[0].name) != reset && !actions[1].clocked && !actions[2].clocked
    ensures ClockedActions(actions, reset) == [ReadAction(actions[0])]
  {
    assert actions[..2][..1] == actions[..1] && actions[..1][..0] == [];
    assert ClockedActions(actions[..1], reset) == [] + [ReadAction(actions[0])];
    assert ClockedActions(actions[..2], reset) == [ReadAction(actions[0])] + [];
  }

  lemma CombOfThree(actions: seq<SpecAction>, reset: Option<Name>)
    requires |actions| == 3
    requires ActionsParse(actions)
    requires !actions[0].combinational && actions[1].combinational && Some(actions[1].name) != reset && !actions[2].combinational
    ensures CombDefs(actions, reset) == ReadEntries(actions[1].updates)
  {
    assert actions[..2][..1] == actions[..1] && actions[..1][..0] == [];
    assert CombDefs(actions[..1], reset) == [] + [];
    assert CombDefs(actions[..2], reset) == [] + ReadEntries(actions[1].updates);
  }

  /** The done flag is the one combinational definition of the three actions. */
  lemma CombFrom(actions: seq<SpecAction>, a: SpecAction, p: Request, plan: Plan, vs: seq<Variable>, reset: Option<Name>)
    requires InitsKnown(p.init, a.updates) && ThreeActions(actions, a, p, plan, vs) && ActionsParse(actions)
    requires reset == Some(plan.resetName) && plan.resetName != "DoneFlag" && !a.combinational
    ensures actions[1] == DoneAction(plan.ctl) && CombDefs(actions, reset) == ReadEntries(actions[1].updates)
  {
    CombOfThree(actions, reset);
  }

  lemma DoneReads(ctl: Control, p: Request)
    requires WellTexted(p)
    ensures ActionParses(DoneAction(ctl))
    ensures AsUpdates(ReadEntries(DoneAction(ctl).updates)) == DoneUpdate(MachineOf(ctl, p))
  {
    DoneParses(ctl);
  }

  lemma DerivedComb(spec: Spec, p: Request, plan: Plan)
    requires OneStatement(spec, plan) && WellTexted(p) && Bases(ParseExpr(true, p.guard, 0).e) == {}
    requires PlainResets(plan.resets)
    ensures SpecParses(Derived(spec, p, plan))
    ensures var r := Derived(spec, p, plan);
      AsUpdates(CombDefs(r.actions, r.resetAction)) == DoneUpdate(MachineOf(plan.ctl, p))
  {
    var r := Derived(spec, p, plan);
    DerivedActions(spec, p, plan);
    DerivedParses(spec, p, plan);
    CombFrom(r.actions, Installed(spec.actions[0], p), p, plan, DerivedVars(spec, p, plan), r.resetAction);
    DoneReads(plan.ctl, p);
  }

  // ---------------------------------------------------------------------------
  // Registers, widths and resets of the digest
  // ---------------------------------------------------------------------------

  /** The declared variables when the control names are new. */
  function BaseVars(spec: Spec, p: Request, plan: Plan): seq<Variable> {
    MarkConcrete(AddFresh(spec.variables, plan.freshVars), KeysOf(p.mapping) + KeysOf(p.body))
  }

  /** What a caller can check: names apart, registers declared, resets complete. */
  ghost predicate PlanFits(spec: Spec, p: Request, plan: Plan, resetPort: Name) {
    var vs, ctl := BaseVars(spec, p, plan), plan.ctl;
    && OneStatement(spec, plan)
    && !HasName(vs, ctl.state) && !HasName(vs, ctl.done) && ctl.state != ctl.done
    && (forall x | x in KeysOf(p.body) :: HasName(vs, x) && !NeverReset(vs, x))
    && {resetPort, CLK} !! {ctl.state, ctl.done, ctl.start} + KeysOf(p.body) + KeysOfInputs(p)
    && PlainResets(plan.resets) && DistinctKeys(plan.resets)
    && (ctl.state, [TNum(0)]) in plan.resets && KeysOf(p.body) <= KeysOf(plan.resets)
    && KeysOf(plan.resets) !! {ctl.start} + KeysOfInputs(p)
  }

  function KeysOfInputs(p: Request): set<Name> {
    set k | 0 <= k < |p.inputs| :: p.inputs[k].0
  }

  lemma ControlAppended(vs: seq<Variable>, ctl: Control)
    requires !HasName(vs, ctl.state) && !HasName(vs, ctl.done) && ctl.state != ctl.done
    ensures ControlDeclared(vs, ctl) == vs + [Variable(ctl.state, 2, false, false, true, Some([TNum(0)])),
                                              Variable(ctl.done, 1, false, true, false, None)]
  {
    var more := vs + [Variable(ctl.state, 2, false, false, true, Some([TNum(0)]))];
    assert Declared(vs, Variable(ctl.state, 2, false, false, true, Some([TNum(0)]))) == more;
    assert !HasName(more, ctl.done);
  }

  lemma {:induction false} ResetKeepsWidths(vs: seq<Variable>, ws: seq<Variable>, resetPort: Name)
    requires |vs| == |ws| && forall k | 0 <= k < |vs| :: vs[k].name == ws[k].name && vs[k].width == ws[k].width
    ensures WidthsOf(vs, resetPort) == WidthsOf(ws, resetPort)
    decreases |vs|
  {
    if vs != [] {
      ResetKeepsWidths(vs[..|vs| - 1], ws[..|ws| - 1], resetPort);
    }
  }

  lemma ResetKeepsRegisters(vs: seq<Variable>, values: Entries, resetPort: Name)
    ensures RegistersOf(Reset(vs, values), resetPort) == RegistersOf(vs, resetPort)
  {
    var ws := Reset(vs, values);
    assert forall k | 0 <= k < |vs| :: ws[k].name == vs[k].name && ws[k].combinational == vs[k].combinational;
    forall x: Name
      ensures x in RegistersOf(ws, resetPort) <==> x in RegistersOf(vs, resetPort)
    {
      if x in RegistersOf(vs, resetPort) {
        var k :| 0 <= k < |vs| && !vs[k].combinational && vs[k].name != resetPort && vs[k].name != CLK && vs[k].name == x;
        assert ws[k].name == x;
      }
      if x in RegistersOf(ws, resetPort) {
        var k :| 0 <= k < |ws| && !ws[k].combinational && ws[k].name != resetPort && ws[k].name != CLK && ws[k].name == x;
        assert vs[k].name == x;
      }
    }
  }

  lemma ControlWidths(vs: seq<Variable>, ctl: Control, resetPort: Name)
    requires !HasName(vs, ctl.state) && !HasName(vs, ctl.done) && ctl.state != ctl.done
    requires {resetPort, CLK} !! {ctl.state, ctl.done}
    ensures var w := WidthsOf(ControlDeclared(vs, ctl), resetPort);
      ctl.state in w && w[ctl.state] == 2 && ctl.done in w && w[ctl.done] == 1
  {
    var sv, dv := Variable(ctl.state, 2, false, false, true, Some([TNum(0)])), Variable(ctl.done, 1, false, true, false, None);
    ControlAppended(vs, ctl);
    var all := vs + [sv, dv];
    assert all[..|all| - 1] == vs + [sv];
    assert (vs + [sv])[..|vs|] == vs;
    assert ctl.state !in {resetPort, CLK} && ctl.done !in {resetPort, CLK};
    assert WidthsOf(vs + [sv], resetPort) == WidthsOf(vs, resetPort)[ctl.state := 2];
  }

  lemma {:induction false} ResetTargetsHave(cfg: Config, us: Assigns, k: nat)
    requires k < |us| && us[k].0.Reg? && us[k].0.x in cfg.regVars
    ensures us[k] in ResetTargets(cfg, us)
    decreases |us|
  {
    if k > 0 {
      ResetTargetsHave(cfg, us[1..], k - 1);
    }
  }

  lemma {:induction false} ResetTargetsDistinct(cfg: Config, us: Assigns)
    requires DistinctBases(us)
    ensures DistinctBases(ResetTargets(cfg, us)) && BasesOf(ResetTargets(cfg, us)) <= BasesOf(us)
    decreases |us|
  {
    if us != [] {
      ResetTargetsDistinct(cfg, us[1..]);
      var rest, all := ResetTargets(cfg, us[1..]), ResetTargets(cfg, us);
      var b := us[0].0.Base();
      assert b in BasesOf(us);
      assert BasesOf(us[1..]) <= BasesOf(us) && b !in BasesOf(us[1..]) by {
        assert forall k | 0 <= k < |us| - 1 :: us[1..][k] == us[k + 1];
      }
      forall k | 0 <= k < |rest|
        ensures rest[k].0.Base() != b
      {
        assert rest[k].0.Base() in BasesOf(rest);
      }
      if b in cfg.regVars {
        assert all == [(Reg(b), us[0].1)] + rest;
      }
    }
  }

  lemma {:induction false} ResetUpdatesHave(vs: seq<Variable>, values: Entries, k: nat)
    requires k < |values| && !NeverReset(vs, values[k].0)
    ensures values[k] in ResetUpdates(vs, values)
    decreases |values|
  {
    if k < |values| - 1 {
      ResetUpdatesHave(vs, values[..|values| - 1], k);
    }
  }

  lemma {:induction false} ResetUpdatesDistinct(vs: seq<Variable>, values: Entries)
    requires DistinctKeys(values)
    ensures DistinctKeys(ResetUpdates(vs, values)) && KeysOf(ResetUpdates(vs, values)) <= KeysOf(values)
    decreases |values|
  {
    if values != [] {
      var n := |values| - 1;
      ResetUpdatesDistinct(vs, values[..n]);
      var before, all := ResetUpdates(vs, values[..n]), ResetUpdates(vs, values);
      assert values[n].0 in KeysOf(values);
      assert KeysOf(values[..n]) <= KeysOf(values) && values[n].0 !in KeysOf(values[..n]) by {
        assert forall k | 0 <= k < n :: values[..n][k] == values[k];
      }
      forall k | 0 <= k < |before|
        ensures before[k].0 != values[n].0
      {
        assert before[k].0 in KeysOf(before);
      }
    }
  }

  lemma EntriesDistinct(es: Entries)
    requires EntriesParse(es) && DistinctKeys(es)
    ensures DistinctBases(ReadEntries(es)) && BasesOf(ReadEntries(es)) == KeysOf(es)
  {
    var us := ReadEntries(es);
    assert forall k | 0 <= k < |es| :: us[k].0.Base() == es[k].0;
    forall x | x in KeysOf(es)
      ensures x in BasesOf(us)
    {
      var k :| 0 <= k < |es| && es[k].0 == x;
      assert us[k].0.Base() == x;
    }
  }

  /** A numeral reset value of a declared register is driven by the reset branch. */
  lemma ResetDriven(cfg: Config, vs: seq<Variable>, values: Entries, k: nat)
    requires PlainResets(values) && k < |values| && !NeverReset(vs, values[k].0) && values[k].0 in cfg.regVars
    requires EntriesParse(ResetUpdates(vs, values)) && cfg.reset == ReadEntries(ResetUpdates(vs, values))
    ensures (Reg(values[k].0), Const(values[k].1[0].n)) in ResetTargets(cfg, cfg.reset)
  {
    var es := ResetUpdates(vs, values);
    ResetUpdatesHave(vs, values, k);
    var i :| 0 <= i < |es| && es[i] == values[k];
    var n := values[k].1[0].n;
    assert values[k].1 == [TNum(n)];
    NumberText(n);
    DenotedParse([TNum(n)], Const(n));
    assert cfg.reset[i] == (Reg(values[k].0), Const(n));
    ResetTargetsHave(cfg, cfg.reset, i);
  }

  lemma DigestResetOf(r: Spec, resetPort: Name, activeLow: bool)
    requires SpecParses(r) && r.resetAction.Some? && |r.actions| == 3
    requires r.actions[2].name == r.resetAction.value
    requires r.actions[0].name != r.actions[2].name && r.actions[1].name != r.actions[2].name
    ensures ActionParses(r.actions[2])
    ensures Digest(r, resetPort, activeLow).reset == ReadEntries(r.actions[2].updates)
  {
    assert ActionAt(r.actions, r.resetAction.value) == Some(2);
  }

  lemma DigestReset(spec: Spec, p: Request, plan: Plan, resetPort: Name, activeLow: bool)
    requires OneStatement(spec, plan) && WellTexted(p) && Bases(ParseExpr(true, p.guard, 0).e) == {}
    requires PlainResets(plan.resets)
    ensures SpecParses(Derived(spec, p, plan))
    ensures EntriesParse(ResetUpdates(DerivedVars(spec, p, plan), plan.resets))
    ensures Digest(Derived(spec, p, plan), resetPort, activeLow).reset
      == ReadEntries(ResetUpdates(DerivedVars(spec, p, plan), plan.resets))
  {
    DerivedActions(spec, p, plan);
    DerivedParses(spec, p, plan);
    DigestResetOf(Derived(spec, p, plan), resetPort, activeLow);
  }

  lemma DigestWidths(r: Spec, vs: seq<Variable>, values: Entries, resetPort: Name, activeLow: bool)
    requires SpecParses(r) && r.variables == Reset(vs, values)
    ensures Digest(r, resetPort, activeLow).widths == WidthsOf(vs, resetPort)
  {
    ResetKeepsWidths(r.variables, vs, resetPort);
  }

  lemma DerivedRegister(spec: Spec, p: Request, plan: Plan, resetPort: Name, x: Name)
    requires PlanFits(spec, p, plan, resetPort) && x in KeysOf(p.body) + {plan.ctl.state}
    ensures !NeverReset(DerivedVars(spec, p, plan), x) && x in RegistersOf(DerivedVars(spec, p, plan), resetPort)
  {
    var vs, all := BaseVars(spec, p, plan), DerivedVars(spec, p, plan);
    ControlAppended(vs, plan.ctl);
    assert x != plan.ctl.done && x !in {resetPort, CLK} by {
      assert x != plan.ctl.state ==> HasName(vs, x);
    }
    if x == plan.ctl.state {
      assert all[|vs|].name == x;
    } else {
      var k :| 0 <= k < |vs| && vs[k].name == x;
      assert all[k] == vs[k];
    }
    forall k | 0 <= k < |all|
      ensures !(all[k].name == x && all[k].combinational)
    {
      assert k < |vs| ==> vs[k] == all[k];
    }
  }

  lemma DerivedResetsRight(spec: Spec, p: Request, plan: Plan, resetPort: Name, activeLow: bool)
    requires PlanFits(spec, p, plan, resetPort) && WellTexted(p) && Bases(ParseExpr(true, p.guard, 0).e) == {}
    ensures SpecParses(Derived(spec, p, plan))
    ensures var cfg := Digest(Derived(spec, p, plan), resetPort, activeLow);
      && ResetsRight(MachineOf(plan.ctl, p), cfg)
      && BasesOf(ResetTargets(cfg, cfg.reset)) <= KeysOf(plan.resets)
  {
    DigestReset(spec, p, plan, resetPort, activeLow);
    var cfg, vs := Digest(Derived(spec, p, plan), resetPort, activeLow), DerivedVars(spec, p, plan);
    DerivedActions(spec, p, plan);
    ResetKeepsRegisters(vs, plan.resets, resetPort);
    ResetUpdatesDistinct(vs, plan.resets);
    EntriesDistinct(ResetUpdates(vs, plan.resets));
    ResetTargetsDistinct(cfg, cfg.reset);
    ResetTargetsRegsOnly(cfg, cfg.reset);
    MachineNames(plan.ctl, p);
    var i :| 0 <= i < |plan.resets| && plan.resets[i] == (plan.ctl.state, [TNum(0)]);
    DerivedRegister(spec, p, plan, resetPort, plan.ctl.state);
    ResetDriven(cfg, vs, plan.resets, i);
    forall x | x in KeysOf(p.body)
      ensures exists n :: (Reg(x), Const(n)) in ResetTargets(cfg, cfg.reset)
    {
      assert x in KeysOf(plan.resets);
      var k :| 0 <= k < |plan.resets| && plan.resets[k].0 == x;
      DerivedRegister(spec, p, plan, resetPort, x);
      ResetDriven(cfg, vs, plan.resets, k);
    }
  }

  lemma CircuitFrom(m: Machine, d: Derivation, cfg: Config, driven: set<Name>, ins: set<Name>)
    requires cfg.clocked == ClockedUpdates(m) && cfg.comb == DoneUpdate(m) && ResetsRight(m, cfg)
    requires m.state in cfg.widths && cfg.widths[m.state] == 2 && m.done in cfg.widths && cfg.widths[m.done] == 1
    requires forall k | 0 <= k < |d.inputs| :: d.inputs[k].0 in ins
    requires {cfg.resetPort, CLK} !! {m.start} + ins && BasesOf(ResetTargets(cfg, cfg.reset)) <= driven && driven !! {m.start} + ins
    ensures Circuit(m, d, cfg)
  {
    assert InputNamesOf(d) <= ins;
  }

  /** The digested circuit of the derived spec is the circuit of the requested loop. */
  lemma DerivedCircuit(spec: Spec, p: Request, plan: Plan, resetPort: Name, activeLow: bool)
    requires PlanFits(spec, p, plan, resetPort) && WellTexted(p) && NativeKernel.Readable(p)
    requires Bases(ParseExpr(true, p.guard, 0).e) == {}
    ensures SpecParses(Derived(spec, p, plan))
    ensures Circuit(MachineOf(plan.ctl, p), NativeKernel.Read(p), Digest(Derived(spec, p, plan), resetPort, activeLow))
    ensures Schedules(MachineOf(plan.ctl, p), NativeKernel.Read(p))
  {
    var m, d := MachineOf(plan.ctl, p), NativeKernel.Read(p);
    RequestSchedules(plan.ctl, p);
    DerivedResetsRight(spec, p, plan, resetPort, activeLow);
    DerivedWidths(spec, p, plan, resetPort, activeLow);
    DerivedClocked(spec, p, plan);
    DerivedComb(spec, p, plan);
    CircuitFrom(m, d, Digest(Derived(spec, p, plan), resetPort, activeLow), KeysOf(plan.resets), KeysOfInputs(p));
  }

  lemma DerivedWidths(spec: Spec, p: Request, plan: Plan, resetPort: Name, activeLow: bool)
    requires PlanFits(spec, p, plan, resetPort) && WellTexted(p) && Bases(ParseExpr(true, p.guard, 0).e) == {}
    ensures SpecParses(Derived(spec, p, plan))
    ensures var w := Digest(Derived(spec, p, plan), resetPort, activeLow).widths;
      plan.ctl.state in w && w[plan.ctl.state] == 2 && plan.ctl.done in w && w[plan.ctl.done] == 1
  {
    DerivedActions(spec, p, plan);
    DerivedParses(spec, p, plan);
    ControlWidths(BaseVars(spec, p, plan), plan.ctl, resetPort);
    DigestWidths(Derived(spec, p, plan), DerivedVars(spec, p, plan), plan.resets, resetPort, activeLow);
  }

  /** `m`, `d` and `cfg` are what the scheduler, the kernel and the simulator make of the request. */
  ghost predicate Reads(spec: Spec, r: Spec, p: Request, plan: Plan, resetPort: Name, activeLow: bool,
                        m: Machine, d: Derivation, cfg: Config) {
    && PlanFits(spec, p, plan, resetPort) && WellTexted(p) && NativeKernel.Readable(p)
    && Bases(ParseExpr(true, p.guard, 0).e) == {}
    && r == Derived(spec, p, plan) && SpecParses(r)
    && m == MachineOf(plan.ctl, p) && d == NativeKernel.Read(p) && cfg == Digest(r, resetPort, activeLow)
  }

  lemma ReadsSchedules(spec: Spec, r: Spec, p: Request, plan: Plan, resetPort: Name, activeLow: bool,
                       m: Machine, d: Derivation, cfg: Config)
    requires Reads(spec, r, p, plan, resetPort, activeLow, m, d, cfg)
    ensures Schedules(m, d) && Circuit(m, d, cfg) && m.done == plan.ctl.done
  {
    DerivedCircuit(spec, p, plan, resetPort, activeLow);
  }

  /**
    End to end, from the proposal to the hardware: when the kernel accepts the requested loop in
    exhaustive mode, then in every run of the circuit the simulator digests from the derived spec,
    whenever done is high the registers deliver the postcondition for the operands sampled at an
    accepted start.
    */
  lemma DerivationDelivers(spec: Spec, r: Spec, p: Request, plan: Plan, resetPort: Name, activeLow: bool,
                           m: Machine, d: Derivation, cfg: Config,
                           threshold: nat, max: nat, s0: Env, stimulus: seq<Vector>, tr: Trace, i: nat)
    requires Reads(spec, r, p, plan, resetPort, activeLow, m, d, cfg) && LoopConditions(m, d, cfg.widths)
    requires Discharge(d, threshold, max).ok && Discharge(d, threshold, max).mode == ExhaustiveProof
    requires GoodStimulus(m, d, cfg, stimulus) && IsRun(cfg, s0, stimulus, tr)
    requires i <= |stimulus| && tr.Shaped() && tr.Length() == |stimulus| && Lookup(tr.states[i], plan.ctl.done) == V(1)
    ensures exists t :: Earned(m, d, tr, t, i) && i - t <= max
  {
    ReadsSchedules(spec, r, p, plan, resetPort, activeLow, m, d, cfg);
    VerdictReachesHardware(m, d, cfg, threshold, max, s0, stimulus, tr, i);
  }
}
