/**
  What the three rules and the simulator's digest do to a spec, said of the spec before and what comes out.
  */
module Rules {
  import opened Expressions
  import opened Grammar
  import opened Splicing
  import opened Simulator
  import opened Composition
  import opened Alternatives
  import opened Kernel
  import NativeKernel
  import opened Scheduling
  import opened Refinement

  /** The `i`-th action is the first of that name. */
  predicate FirstNamed(actions: seq<SpecAction>, name: Name, i: nat) {
    i < |actions| && actions[i].name == name && forall j | 0 <= j < i :: actions[j].name != name
  }

  predicate NoneNamed(actions: seq<SpecAction>, name: Name) {
    forall j | 0 <= j < |actions| :: actions[j].name != name
  }

  lemma {:induction false} ActionAtIs(actions: seq<SpecAction>, name: Name)
    ensures ActionAt(actions, name).None? <==> NoneNamed(actions, name)
    ensures ActionAt(actions, name).Some? ==> FirstNamed(actions, name, ActionAt(actions, name).value)
    decreases actions
  {
    if actions != [] && actions[0].name != name {
      ActionAtIs(actions[1..], name);
      assert forall j | 0 < j < |actions| :: actions[1..][j - 1] == actions[j];
      if NoneNamed(actions[1..], name) {
        assert forall j | 0 <= j < |actions| :: actions[j].name != name;
      }
    }
  }

  lemma FirstNamedOnce(actions: seq<SpecAction>, name: Name, i: nat)
    requires FirstNamed(actions, name, i)
    ensures ActionAt(actions, name) == Some(i)
  {
    ActionAtIs(actions, name);
  }

  // ---------------------------------------------------------------------------
  // LoopIntroduction
  // ---------------------------------------------------------------------------

  /** `v` is the register a fresh variable is declared as. */
  predicate IsFresh(v: Variable, f: FreshVar) {
    v == Variable(f.name, f.width, false, false, true, f.resetValue)
  }

  /**
    Declared variables keep their places and at most become concrete; every fresh name is declared, and
    what is added are fresh registers.
    */
  ghost predicate Declares(vs: seq<Variable>, fvs: seq<FreshVar>, ws: seq<Variable>) {
    && |vs| <= |ws|
    && (forall k | 0 <= k < |vs| :: ws[k] == vs[k] || ws[k] == vs[k].(abstrct := false))
    && (forall k | 0 <= k < |fvs| :: HasName(ws, fvs[k].name))
    && (forall k | |vs| <= k < |ws| :: exists j :: 0 <= j < |fvs| && IsFresh(ws[k], fvs[j]))
  }

  lemma {:induction false} FreshDeclares(vs: seq<Variable>, fvs: seq<FreshVar>)
    ensures Declares(vs, fvs, AddFresh(vs, fvs))
    decreases |fvs|
  {
    if fvs != [] {
      FreshDeclares(vs, fvs[..|fvs| - 1]);
      NextDeclares(vs, fvs, AddFresh(vs, fvs[..|fvs| - 1]), AddFresh(vs, fvs));
    }
  }

  lemma NextDeclares(vs: seq<Variable>, fvs: seq<FreshVar>, before: seq<Variable>, after: seq<Variable>)
    requires fvs != [] && Declares(vs, fvs[..|fvs| - 1], before)
    requires var f := fvs[|fvs| - 1];
      if HasName(before, f.name) then
        |after| == |before| &&
        forall k | 0 <= k < |before| :: after[k] == if before[k].name == f.name then Concretize(before[k]) else before[k]
      else after == before + [Variable(f.name, f.width, false, false, true, f.resetValue)]
    ensures Declares(vs, fvs, after)
  {
    var n := |fvs| - 1;
    forall k | 0 <= k < |fvs|
      ensures HasName(after, fvs[k].name)
    {
      if k < n || HasName(before, fvs[n].name) {
        assert k < n ==> fvs[..n][k] == fvs[k];
        var i :| 0 <= i < |before| && before[i].name == fvs[k].name;
        assert after[i].name == fvs[k].name;
      } else {
        assert after[|before|].name == fvs[n].name;
      }
    }
    forall k | |vs| <= k < |after|
      ensures exists j :: 0 <= j < |fvs| && IsFresh(after[k], fvs[j])
    {
      if k < |before| {
        var j :| 0 <= j < n && IsFresh(before[k], fvs[..n][j]);
        assert IsFresh(after[k], fvs[j]);
      } else {
        assert IsFresh(after[k], fvs[n]);
      }
    }
  }

  /** A variable the loop computes or maps is concrete and clocked afterwards; any other is as it was. */
  predicate Marked(v: Variable, w: Variable, p: Request) {
    if (exists k :: 0 <= k < |p.body| && p.body[k].0 == v.name) || (exists k :: 0 <= k < |p.mapping| && p.mapping[k].0 == v.name)
    then w == v.(abstrct := false, clocked := true)
    else w == v
  }

  lemma MarkConcreteMarks(vs: seq<Variable>, p: Request, k: nat)
    requires k < |vs|
    ensures Marked(vs[k], MarkConcrete(vs, KeysOf(p.mapping) + KeysOf(p.body))[k], p)
  {
  }

  /** What an accepted loop leaves of the action it refines: the loop's body and guard, marked for the scheduler. */
  predicate Refines(a: SpecAction, b: SpecAction, p: Request) {
    && b.name == a.name && b.combinational == a.combinational
    && b.updates == p.body && b.guard == p.guard && b.clocked && !b.specStatement
    && b.loop == Some(LoopMark(p.init, p.body, p.variant, p.guard))
  }

  /**
    A rejected loop or an unknown action changes nothing. An accepted loop changes the first action of
    the name and no other, declares its fresh registers, and makes what it computes concrete.
    */
  lemma {:induction false} IntroductionMeans(spec: Spec, action: Name, p: Request, fvs: seq<FreshVar>, threshold: nat, max: nat, i: nat)
    returns (declared: seq<Variable>)
    requires NativeKernel.Readable(p)
    ensures var r := Introduction(spec, action, p, fvs, threshold, max);
      var ok := Discharge(NativeKernel.Read(p), threshold, max).ok;
      && (!ok || NoneNamed(spec.actions, action) ==> r == spec)
      && (ok && FirstNamed(spec.actions, action, i) ==>
            && |r.actions| == |spec.actions| && Refines(spec.actions[i], r.actions[i], p) && r.resetAction == spec.resetAction
            && (forall j | 0 <= j < |spec.actions| && j != i :: r.actions[j] == spec.actions[j])
            && Declares(spec.variables, fvs, declared) && |r.variables| == |declared|
            && forall k | 0 <= k < |declared| :: Marked(declared[k], r.variables[k], p))
  {
    declared := AddFresh(spec.variables, fvs);
    ActionAtIs(spec.actions, action);
    if FirstNamed(spec.actions, action, i) {
      FirstNamedOnce(spec.actions, action, i);
    }
    FreshDeclares(spec.variables, fvs);
    forall k | 0 <= k < |declared|
      ensures Marked(declared[k], MarkConcrete(declared, KeysOf(p.mapping) + KeysOf(p.body))[k], p)
    {
      MarkConcreteMarks(declared, p, k);
    }
  }

  // ---------------------------------------------------------------------------
  // ScheduleHandshakeFSM
  // ---------------------------------------------------------------------------

  ghost predicate Listed(init: Entries, x: Name) {
    exists j :: 0 <= j < |init| && init[j].0 == x
  }

  /** Every register of the body has a load value. */
  ghost predicate AllLoaded(a: SpecAction) {
    a.loop.Some? && forall k | 0 <= k < |a.updates| :: Listed(a.loop.value.init, a.updates[k].0)
  }

  lemma AllLoadedIff(a: SpecAction)
    requires a.loop.Some?
    ensures AllLoaded(a) <==> InitsKnown(a.loop.value.init, a.updates)
  {
    var init := a.loop.value.init;
    forall k | 0 <= k < |a.updates|
      ensures Find(init, a.updates[k].0).Some? <==> Listed(init, a.updates[k].0)
    {
      FindKnown(init, a.updates[k].0);
    }
  }

  /** A scheduled action is unconditional, clocked and no longer marked; it drives the control register and the registers of the body. */
  predicate Scheduled(a: SpecAction, b: SpecAction, ctl: Control) {
    && b.name == a.name && b.guard == [TTrue] && b.clocked && b.loop == None && b.combinational == a.combinational
    && |b.updates| == |a.updates| + 1 && b.updates[0].0 == ctl.state
    && forall k | 0 <= k < |a.updates| :: b.updates[k + 1].0 == a.updates[k].0
  }

  /** The combinational action that raises done when the control register shows 2. */
  predicate RaisesDone(a: SpecAction, ctl: Control) {
    && a.combinational && !a.clocked && |a.updates| == 1 && a.updates[0].0 == ctl.done
    && Denotes(a.updates[0].1, Bin(Eq, Var(ctl.state), Const(2)))
  }

  lemma ActionIsScheduled(ctl: Control, a: SpecAction, init: Entries)
    requires InitsKnown(init, a.updates)
    ensures Scheduled(a, ScheduledAction(ctl, a, init), ctl)
  {
  }

  lemma DoneIsRaised(ctl: Control)
    ensures RaisesDone(DoneAction(ctl), ctl)
  {
    EqTextDenotes(ctl.state, 2);
  }

  /** One action replaced and one put behind. */
  lemma ReplacedAt(actions: seq<SpecAction>, i: nat, a: SpecAction, d: SpecAction)
    requires i < |actions|
    ensures var r := actions[i := a] + [d];
      |r| == |actions| + 1 && r[i] == a && r[|actions|] == d
      && forall j | 0 <= j < |actions| && j != i :: r[j] == actions[j]
  {
  }

  /**
    Without a marked action of the name nothing changes; with a register that has no load value the rule
    fails; else the action is scheduled, every other action stays, and the done action comes last.
    */
  lemma ScheduleMeans(spec: Spec, action: Name, ctl: Control, i: nat)
    ensures var r := Schedule(spec, action, ctl);
      && (NoneNamed(spec.actions, action) ==> r == Some(spec))
      && (FirstNamed(spec.actions, action, i) && spec.actions[i].loop == None ==> r == Some(spec))
      && (FirstNamed(spec.actions, action, i) && spec.actions[i].loop.Some? && !AllLoaded(spec.actions[i]) ==> r == None)
      && (FirstNamed(spec.actions, action, i) && spec.actions[i].loop.Some? && AllLoaded(spec.actions[i]) ==>
            && r.Some? && |r.value.actions| == |spec.actions| + 1 && r.value.resetAction == spec.resetAction
            && Scheduled(spec.actions[i], r.value.actions[i], ctl) && RaisesDone(r.value.actions[|spec.actions|], ctl)
            && (forall j | 0 <= j < |spec.actions| && j != i :: r.value.actions[j] == spec.actions[j])
            && ControlKnown(spec.variables, r.value.variables, ctl))
  {
    ActionAtIs(spec.actions, action);
    if FirstNamed(spec.actions, action, i) {
      FirstNamedOnce(spec.actions, action, i);
      var a := spec.actions[i];
      if a.loop.Some? {
        AllLoadedIff(a);
        if AllLoaded(a) {
          ActionIsScheduled(ctl, a, a.loop.value.init);
          DoneIsRaised(ctl);
          ReplacedAt(spec.actions, i, ScheduledAction(ctl, a, a.loop.value.init), DoneAction(ctl));
          ControlIsKnown(spec.variables, ctl);
        }
      }
    }
  }

  /** Declared variables stay as they are; a missing control register is two bits wide and resets to 0, a missing done one combinational bit. */
  ghost predicate ControlKnown(vs: seq<Variable>, ws: seq<Variable>, ctl: Control) {
    && vs <= ws && HasName(ws, ctl.state) && HasName(ws, ctl.done)
    && forall k | |vs| <= k < |ws| ::
         || ws[k] == Variable(ctl.state, 2, false, false, true, Some([TNum(0)]))
         || ws[k] == Variable(ctl.done, 1, false, true, false, None)
  }

  lemma DeclaredHas(vs: seq<Variable>, v: Variable)
    ensures HasName(Declared(vs, v), v.name) && vs <= Declared(vs, v)
    ensures Declared(vs, v) == vs || Declared(vs, v) == vs + [v]
  {
    if !HasName(vs, v.name) {
      assert (vs + [v])[|vs|].name == v.name;
    }
  }

  lemma ControlIsKnown(vs: seq<Variable>, ctl: Control)
    ensures ControlKnown(vs, ControlDeclared(vs, ctl), ctl)
  {
    var sv, dv := Variable(ctl.state, 2, false, false, true, Some([TNum(0)])), Variable(ctl.done, 1, false, true, false, None);
    var ws := Declared(vs, sv);
    DeclaredHas(vs, sv);
    DeclaredHas(ws, dv);
    var k :| 0 <= k < |ws| && ws[k].name == ctl.state;
    assert Declared(ws, dv)[k].name == ctl.state;
  }

  // ---------------------------------------------------------------------------
  // Initialization
  // ---------------------------------------------------------------------------

  /** A name declared as a combinational variable. */
  ghost predicate IsComb(vs: seq<Variable>, x: Name) {
    exists k :: 0 <= k < |vs| && vs[k].name == x && vs[k].combinational
  }

  lemma {:induction false} ResetListIff(vs: seq<Variable>, values: Entries, u: (Name, Text))
    ensures u in ResetUpdates(vs, values) <==> u in values && !IsComb(vs, u.0)
    decreases |values|
  {
    if values != [] {
      var n := |values| - 1;
      ResetListIff(vs, values[..n], u);
      assert values == values[..n] + [values[n]];
    }
  }

  /** The value listed last for a name. */
  ghost predicate LastValue(values: Entries, x: Name, s: Text) {
    exists k :: 0 <= k < |values| && values[k] == (x, s) && forall j | k < j < |values| :: values[j].0 != x
  }

  lemma {:induction false} FindIsLast(values: Entries, x: Name, s: Text)
    ensures Find(values, x) == Some(s) <==> LastValue(values, x, s)
    decreases |values|
  {
    if values != [] {
      var n := |values| - 1;
      FindIsLast(values[..n], x, s);
      if values[n] == (x, s) {
        assert LastValue(values, x, s);
      }
      if values[n].0 != x && LastValue(values[..n], x, s) {
        var k :| 0 <= k < n && values[..n][k] == (x, s) && forall j | k < j < n :: values[..n][j].0 != x;
        assert values[k] == (x, s) && forall j | k < j < |values| :: j < n ==> values[j] == values[..n][j];
      }
      if values[n].0 != x && LastValue(values, x, s) {
        var k :| 0 <= k < |values| && values[k] == (x, s) && forall j | k < j < |values| :: values[j].0 != x;
        assert values[..n][k] == (x, s) && forall j | k < j < n :: values[..n][j] == values[j];
      }
    }
  }

  /**
    The rule names the reset action, appends it unless one of that name exists, lists in it every value
    given for a name that is not combinational, and records those values in the declarations.
    */
  lemma InitializeMeans(spec: Spec, resetName: Name, values: Entries)
    ensures var r := Initialize(spec, resetName, values);
      && r.resetAction == Some(resetName) && |r.variables| == |spec.variables|
      && (NoneNamed(spec.actions, resetName) ==>
            && |r.actions| == |spec.actions| + 1 && r.actions[..|spec.actions|] == spec.actions
            && r.actions[|spec.actions|].name == resetName && r.actions[|spec.actions|].guard == [TId("rst"), TEq, TTrue]
            && !r.actions[|spec.actions|].clocked && !r.actions[|spec.actions|].combinational
            && forall u :: u in r.actions[|spec.actions|].updates <==> u in values && !IsComb(spec.variables, u.0))
      && (!NoneNamed(spec.actions, resetName) ==> r.actions == spec.actions)
      && forall k | 0 <= k < |spec.variables| ::
           var v, w := spec.variables[k], r.variables[k];
           && w == v.(resetValue := w.resetValue)
           && (forall s | LastValue(values, v.name, s) && !IsComb(spec.variables, v.name) :: w.resetValue == Some(s))
  {
    ActionAtIs(spec.actions, resetName);
    forall u
      ensures u in ResetUpdates(spec.variables, values) <==> u in values && !IsComb(spec.variables, u.0)
    {
      ResetListIff(spec.variables, values, u);
    }
    forall k, s | 0 <= k < |spec.variables| && LastValue(values, spec.variables[k].name, s)
      ensures Find(values, spec.variables[k].name) == Some(s)
    {
      FindIsLast(values, spec.variables[k].name, s);
    }
  }

  // ---------------------------------------------------------------------------
  // What the simulator digests
  // ---------------------------------------------------------------------------

  /** The `k`-th variable is the last of that name. */
  predicate LastDeclared(vs: seq<Variable>, x: Name, k: nat) {
    k < |vs| && vs[k].name == x && forall j | k < j < |vs| :: vs[j].name != x
  }

  predicate IsPort(x: Name, port: Name) {
    x == port || x == "clk"
  }

  lemma {:induction false} WidthsMean(vs: seq<Variable>, port: Name, x: Name, k: nat)
    ensures x in WidthsOf(vs, port) ==> HasName(vs, x) && !IsPort(x, port)
    ensures LastDeclared(vs, x, k) && !IsPort(x, port) ==>
      x in WidthsOf(vs, port) && WidthsOf(vs, port)[x] == if vs[k].width == 0 then 1 else vs[k].width
    decreases |vs|
  {
    if vs != [] {
      var n := |vs| - 1;
      WidthsMean(vs[..n], port, x, k);
      if HasName(vs[..n], x) {
        var j :| 0 <= j < n && vs[..n][j].name == x;
        assert vs[j].name == x;
      }
      assert k < n && LastDeclared(vs, x, k) ==> LastDeclared(vs[..n], x, k);
    }
  }

  /** The update is one of the action's, its right-hand side as it is read. */
  ghost predicate Updates(a: SpecAction, u: (Lhs, Expr))
    requires ActionParses(a)
  {
    exists j :: 0 <= j < |a.updates| && u == (Reg(a.updates[j].0), Parse(a.updates[j].1).e)
  }

  lemma EntryRead(a: SpecAction, u: (Lhs, Expr))
    requires ActionParses(a)
    ensures u in ReadEntries(a.updates) <==> Updates(a, u)
  {
    var es := ReadEntries(a.updates);
    assert forall j | 0 <= j < |es| :: es[j] == (Reg(a.updates[j].0), Parse(a.updates[j].1).e);
  }

  /** The update is of a combinational action other than the reset. */
  ghost predicate Defines(a: SpecAction, reset: Option<Name>, u: (Lhs, Expr))
    requires ActionParses(a)
  {
    a.combinational && reset != Some(a.name) && Updates(a, u)
  }

  ghost predicate IsDefinition(actions: seq<SpecAction>, reset: Option<Name>, u: (Lhs, Expr))
    requires ActionsParse(actions)
  {
    exists k :: 0 <= k < |actions| && Defines(actions[k], reset, u)
  }

  lemma DefinitionStep(actions: seq<SpecAction>, reset: Option<Name>, u: (Lhs, Expr))
    requires actions != [] && ActionsParse(actions)
    ensures IsDefinition(actions, reset, u) <==>
      IsDefinition(actions[..|actions| - 1], reset, u) || Defines(actions[|actions| - 1], reset, u)
  {
    var n := |actions| - 1;
    if IsDefinition(actions, reset, u) && !Defines(actions[n], reset, u) {
      var k :| 0 <= k < |actions| && Defines(actions[k], reset, u);
      assert Defines(actions[..n][k], reset, u);
    }
    if IsDefinition(actions[..n], reset, u) {
      var k :| 0 <= k < n && Defines(actions[..n][k], reset, u);
      assert Defines(actions[k], reset, u);
    }
  }

  lemma {:induction false} DefinitionIff(actions: seq<SpecAction>, reset: Option<Name>, u: (Lhs, Expr))
    requires ActionsParse(actions)
    ensures u in CombDefs(actions, reset) <==> IsDefinition(actions, reset, u)
    decreases |actions|
  {
    if actions != [] {
      var n := |actions| - 1;
      DefinitionIff(actions[..n], reset, u);
      EntryRead(actions[n], u);
      DefinitionStep(actions, reset, u);
    }
  }

  /** What the simulator keeps of an action; only the guard `TRUE` is none. */
  predicate ReadAs(a: SpecAction, r: Action)
    requires ActionParses(a)
  {
    && r.guard == (if a.guard == [TTrue] then Always else When(Parse(a.guard).e))
    && |r.updates| == |a.updates|
    && forall j | 0 <= j < |r.updates| :: r.updates[j] == (Reg(a.updates[j].0), Parse(a.updates[j].1).e)
  }

  /** The `k`-th action is clocked and not the reset. */
  predicate IsClocked(actions: seq<SpecAction>, reset: Option<Name>, k: nat) {
    k < |actions| && actions[k].clocked && reset != Some(actions[k].name)
  }

  ghost predicate Ascending(at: seq<nat>) {
    forall i, j | 0 <= i < j < |at| :: at[i] < at[j]
  }

  ghost predicate Picks(actions: seq<SpecAction>, reset: Option<Name>, rs: seq<Action>, at: seq<nat>)
    requires ActionsParse(actions)
  {
    |at| == |rs| && forall i | 0 <= i < |at| :: IsClocked(actions, reset, at[i]) && ReadAs(actions[at[i]], rs[i])
  }

  ghost predicate MissesNone(actions: seq<SpecAction>, reset: Option<Name>, at: seq<nat>) {
    forall k: nat | IsClocked(actions, reset, k) :: k in at
  }

  /** `at` picks the clocked actions other than the reset, each once and in order, and `rs` are what is kept of them. */
  ghost predicate Clocks(actions: seq<SpecAction>, reset: Option<Name>, rs: seq<Action>, at: seq<nat>)
    requires ActionsParse(actions)
  {
    Ascending(at) && Picks(actions, reset, rs, at) && MissesNone(actions, reset, at)
  }

  lemma {:induction false} ClockedMeans(actions: seq<SpecAction>, reset: Option<Name>) returns (at: seq<nat>)
    requires ActionsParse(actions)
    ensures Clocks(actions, reset, ClockedActions(actions, reset), at)
    decreases |actions|
  {
    at := [];
    if actions != [] {
      var n := |actions| - 1;
      var rs := ClockedActions(actions[..n], reset);
      var before := ClockedMeans(actions[..n], reset);
      if IsClocked(actions, reset, n) {
        at := before + [n];
        AscendingNext(before, n);
        PicksKept(actions, reset, rs, before);
        PicksNext(actions, reset, rs, before);
      } else {
        at := before;
        PicksKept(actions, reset, rs, before);
        assert rs + [] == rs;
      }
      NoneMissed(actions, reset, before, at);
    }
  }

  lemma AscendingNext(at: seq<nat>, n: nat)
    requires Ascending(at) && forall i | 0 <= i < |at| :: at[i] < n
    ensures Ascending(at + [n])
  {
  }

  lemma PicksKept(actions: seq<SpecAction>, reset: Option<Name>, rs: seq<Action>, at: seq<nat>)
    requires actions != [] && ActionsParse(actions) && Picks(actions[..|actions| - 1], reset, rs, at)
    ensures Picks(actions, reset, rs, at) && forall i | 0 <= i < |at| :: at[i] < |actions| - 1
  {
    var n := |actions| - 1;
    forall i | 0 <= i < |at|
      ensures IsClocked(actions, reset, at[i]) && ReadAs(actions[at[i]], rs[i]) && at[i] < n
    {
      assert IsClocked(actions[..n], reset, at[i]) && actions[..n][at[i]] == actions[at[i]];
    }
  }

  lemma PicksNext(actions: seq<SpecAction>, reset: Option<Name>, rs: seq<Action>, at: seq<nat>)
    requires actions != [] && ActionsParse(actions) && Picks(actions, reset, rs, at)
    requires IsClocked(actions, reset, |actions| - 1)
    ensures Picks(actions, reset, rs + [ReadAction(actions[|actions| - 1])], at + [|actions| - 1])
  {
  }

  lemma NoneMissed(actions: seq<SpecAction>, reset: Option<Name>, before: seq<nat>, at: seq<nat>)
    requires actions != [] && MissesNone(actions[..|actions| - 1], reset, before)
    requires forall k | k in before :: k in at
    requires IsClocked(actions, reset, |actions| - 1) ==> |actions| - 1 in at
    ensures MissesNone(actions, reset, at)
  {
    var n := |actions| - 1;
    forall k: nat | IsClocked(actions, reset, k)
      ensures k in at
    {
      assert k < n ==> IsClocked(actions[..n], reset, k);
    }
  }

  /**
    The configuration: the widths last declared, a scalar without one counting as a bit; the registers; the
    combinational definitions; the clocked actions, composed; and the updates of the first action of the
    reset's name. The clock and the reset port are neither registers nor masked.
    */
  lemma {:induction false} DigestMeans(spec: Spec, port: Name, activeLow: bool, x: Name, k: nat, y: Name, e: Expr) returns (rs: seq<Action>, at: seq<nat>)
    requires SpecParses(spec)
    ensures var c := Digest(spec, port, activeLow);
      && c.resetPort == port && c.activeLow == activeLow
      && (x in c.widths ==> HasName(spec.variables, x) && !IsPort(x, port))
      && (LastDeclared(spec.variables, x, k) && !IsPort(x, port) ==>
            x in c.widths && c.widths[x] == if spec.variables[k].width == 0 then 1 else spec.variables[k].width)
      && (x in c.regVars <==>
            !IsPort(x, port) && exists j :: 0 <= j < |spec.variables| && spec.variables[j].name == x && !spec.variables[j].combinational)
      && ((y, e) in c.comb <==> IsDefinition(spec.actions, spec.resetAction, (Reg(y), e)))
      && Clocks(spec.actions, spec.resetAction, rs, at) && c.clocked == Composed(rs)
  {
    WidthsMean(spec.variables, port, x, k);
    rs := ClockedActions(spec.actions, spec.resetAction);
    at := ClockedMeans(spec.actions, spec.resetAction);
    CombRead(spec, port, activeLow, y, e);
  }

  lemma CombRead(spec: Spec, port: Name, activeLow: bool, y: Name, e: Expr)
    requires SpecParses(spec)
    ensures (y, e) in Digest(spec, port, activeLow).comb <==> IsDefinition(spec.actions, spec.resetAction, (Reg(y), e))
  {
    var defs := CombDefs(spec.actions, spec.resetAction);
    DefinitionIff(spec.actions, spec.resetAction, (Reg(y), e));
    DefinedByName(spec.actions, spec.resetAction);
    assert forall j | 0 <= j < |defs| :: AsUpdates(defs)[j] == (defs[j].0.Base(), defs[j].1);
  }

  lemma {:induction false} DefinedByName(actions: seq<SpecAction>, reset: Option<Name>)
    requires ActionsParse(actions)
    ensures forall j | 0 <= j < |CombDefs(actions, reset)| :: CombDefs(actions, reset)[j].0.Reg?
    decreases |actions|
  {
    if actions != [] {
      DefinedByName(actions[..|actions| - 1], reset);
    }
  }

  /** On the reset, what the first action of the reset's name says; nothing when there is none. */
  lemma DigestResets(spec: Spec, port: Name, activeLow: bool, i: nat, u: (Lhs, Expr))
    requires SpecParses(spec)
    ensures var c := Digest(spec, port, activeLow);
      && (spec.resetAction == None || NoneNamed(spec.actions, spec.resetAction.value) ==> c.reset == [])
      && (spec.resetAction.Some? && FirstNamed(spec.actions, spec.resetAction.value, i) ==>
            (u in c.reset <==> Updates(spec.actions[i], u)))
  {
    if spec.resetAction.Some? {
      ActionAtIs(spec.actions, spec.resetAction.value);
      if FirstNamed(spec.actions, spec.resetAction.value, i) {
        FirstNamedOnce(spec.actions, spec.resetAction.value, i);
        EntryRead(spec.actions[i], u);
      }
    }
  }
}
