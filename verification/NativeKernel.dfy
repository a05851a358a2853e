/**
  The native obligation kernel. It compiles every expression once, turns an odometer instead of
  materialising the product, counts cases in saturating 64-bit arithmetic, and walks the loop in
  place over slots with presence flags. Proved: it returns the reference kernel's verdict, with
  the same mode, case count, flags, and counterexample inputs, state and detail.
  */
module NativeKernel {
  import opened Expressions
  import opened Grammar
  import opened NativeExpressions
  import opened Domain
  import opened Kernel

  /** A discharge request as the kernel receives it: every expression is still text. */
  datatype LoopParams = LoopParams(
    post: Text, inv: Text, variant: Text, guard: Text,
    init: seq<(Name, Text)>, body: seq<(Name, Text)>, mapping: seq<(Name, Text)>,
    inputs: seq<(Name, nat)>)

  predicate Parses(s: Text) {
    Parse(s).Good?
  }

  predicate AllParse(us: seq<(Name, Text)>) {
    forall k | 0 <= k < |us| :: Parses(us[k].1)
  }

  predicate Readable(p: LoopParams) {
    && Parses(p.post) && Parses(p.inv) && Parses(p.variant) && Parses(p.guard)
    && AllParse(p.init) && AllParse(p.body) && AllParse(p.mapping)
  }

  function Reading(us: seq<(Name, Text)>): (r: Updates)
    requires AllParse(us)
    ensures |r| == |us|
  {
    seq(|us|, k requires 0 <= k < |us| => (us[k].0, Parse(us[k].1).e))
  }

  /** The derivation the reference kernel reads from the request. */
  function Read(p: LoopParams): Derivation
    requires Readable(p)
  {
    Derivation(Parse(p.post).e, Parse(p.inv).e, Parse(p.variant).e, Parse(p.guard).e,
               Reading(p.init), Reading(p.body), Reading(p.mapping), p.inputs)
  }

  // ---------------------------------------------------------------------------
  // Compilation
  // ---------------------------------------------------------------------------

  type SlotUpdates = seq<(nat, Compiled)>

  datatype CompiledLoop = CompiledLoop(
    syms: SymTab, inputs: seq<(nat, nat)>,
    init: SlotUpdates, body: SlotUpdates, mapping: SlotUpdates,
    post: Compiled, inv: Compiled, variant: Compiled, guard: Compiled)

  /** Compiled assignments that mean `us`. */
  ghost predicate UpdatesMean(cs: SlotUpdates, names: seq<Name>, us: Updates) {
    && |cs| == |us|
    && forall k | 0 <= k < |us| ::
         cs[k].0 < |names| && names[cs[k].0] == us[k].0 && Means(cs[k].1, names, us[k].1)
  }

  ghost predicate InputSlots(slots: seq<(nat, nat)>, names: seq<Name>, inputs: seq<(Name, nat)>) {
    && |slots| == |inputs|
    && forall k | 0 <= k < |inputs| ::
         slots[k].0 < |names| && names[slots[k].0] == inputs[k].0 && slots[k].1 == Pow2(inputs[k].1)
  }

  ghost predicate LoopMeans(c: CompiledLoop, d: Derivation) {
    var names := c.syms.names;
    && c.syms.Valid()
    && InputSlots(c.inputs, names, d.inputs)
    && UpdatesMean(c.init, names, d.init) && UpdatesMean(c.body, names, d.body)
    && UpdatesMean(c.mapping, names, d.mapping)
    && Means(c.post, names, d.post) && Means(c.inv, names, d.inv)
    && Means(c.variant, names, d.variant) && Means(c.guard, names, d.guard)
  }

  lemma UpdatesMeanGrow(cs: SlotUpdates, names: seq<Name>, names': seq<Name>, us: Updates)
    requires UpdatesMean(cs, names, us) && names <= names'
    ensures UpdatesMean(cs, names', us)
  {
    forall k | 0 <= k < |us|
      ensures Means(cs[k].1, names', us[k].1)
    {
      MeansGrows(cs[k].1, names, names', us[k].1);
    }
  }

  /** One more assignment compiled. */
  lemma UpdatesMeanNext(cs: SlotUpdates, names: seq<Name>, names': seq<Name>, us: seq<(Name, Text)>, k: nat, c: (nat, Compiled))
    requires k < |us| && AllParse(us[..k]) && Parses(us[k].1) && names <= names' && UpdatesMean(cs, names, Reading(us[..k]))
    requires c.0 < |names'| && names'[c.0] == us[k].0 && Means(c.1, names', Parse(us[k].1).e)
    ensures AllParse(us[..k + 1]) && UpdatesMean(cs + [c], names', Reading(us[..k + 1]))
  {
    UpdatesMeanGrow(cs, names, names', Reading(us[..k]));
    assert Reading(us[..k + 1]) == Reading(us[..k]) + [(us[k].0, Parse(us[k].1).e)];
  }

  method InternAll(us: seq<(Name, Text)>, syms: SymTab) returns (syms': SymTab)
    requires syms.Valid()
    ensures syms'.Valid() && syms.names <= syms'.names
  {
    syms' := syms;
    for k := 0 to |us|
      invariant syms'.Valid() && syms.names <= syms'.names
    {
      syms' := syms'.Intern(us[k].0).0;
    }
  }

  method CompileUpdates(us: seq<(Name, Text)>, syms: SymTab) returns (r: Option<SlotUpdates>, syms': SymTab)
    requires syms.Valid()
    ensures syms'.Valid() && syms.names <= syms'.names
    ensures r.Some? <==> AllParse(us)
    ensures r.Some? ==> UpdatesMean(r.value, syms'.names, Reading(us))
  {
    var cs: SlotUpdates := [];
    syms' := syms;
    for k := 0 to |us|
      invariant syms'.Valid() && syms.names <= syms'.names
      invariant AllParse(us[..k])
      invariant UpdatesMean(cs, syms'.names, Reading(us[..k]))
    {
      ghost var names0 := syms'.names;
      var (s1, slot) := syms'.Intern(us[k].0);
      var c: Option<Compiled>;
      c, syms' := CompileExpr(us[k].1, s1);
      if c.None? {
        assert !Parses(us[k].1);
        return None, syms';
      }
      UpdatesMeanNext(cs, names0, syms'.names, us, k, (slot, c.value));
      cs := cs + [(slot, c.value)];
    }
    assert us[..|us|] == us;
    return Some(cs), syms';
  }

  method InternInputs(inputs: seq<(Name, nat)>) returns (slots: seq<(nat, nat)>, syms: SymTab)
    ensures syms.Valid() && InputSlots(slots, syms.names, inputs)
  {
    syms := SymTab(map[], []);
    slots := [];
    for k := 0 to |inputs|
      invariant syms.Valid() && InputSlots(slots, syms.names, inputs[..k])
    {
      var (s1, slot) := syms.Intern(inputs[k].0);
      assert syms.names <= s1.names;
      syms := s1;
      slots := slots + [(slot, Pow2(inputs[k].1))];
    }
    assert inputs[..|inputs|] == inputs;
  }

  /** `compile`: reserve the slots of inputs, init, body and mapping targets, then compile everything. */
  method CompileLoop(p: LoopParams) returns (r: Option<CompiledLoop>)
    ensures r.Some? <==> Readable(p)
    ensures r.Some? ==> LoopMeans(r.value, Read(p))
  {
    var inputs, syms := InternInputs(p.inputs);
    syms := InternAll(p.init, syms);
    syms := InternAll(p.body, syms);
    syms := InternAll(p.mapping, syms);
    ghost var n0 := syms.names;
    var init, s1 := CompileUpdates(p.init, syms);
    if init.None? {
      return None;
    }
    var body, s2 := CompileUpdates(p.body, s1);
    if body.None? {
      return None;
    }
    var mapping, s3 := CompileUpdates(p.mapping, s2);
    if mapping.None? {
      return None;
    }
    r := CompileRest(p, inputs, init.value, body.value, mapping.value, s1, s2, s3);
  }

  method CompileRest(p: LoopParams, inputs: seq<(nat, nat)>, init: SlotUpdates, body: SlotUpdates,
                     mapping: SlotUpdates, ghost s1: SymTab, ghost s2: SymTab, s3: SymTab)
    returns (r: Option<CompiledLoop>)
    requires AllParse(p.init) && AllParse(p.body) && AllParse(p.mapping)
    requires s1.names <= s2.names <= s3.names && s3.Valid()
    requires InputSlots(inputs, s1.names, p.inputs)
    requires UpdatesMean(init, s1.names, Reading(p.init))
    requires UpdatesMean(body, s2.names, Reading(p.body))
    requires UpdatesMean(mapping, s3.names, Reading(p.mapping))
    ensures r.Some? <==> Readable(p)
    ensures r.Some? ==> LoopMeans(r.value, Read(p))
  {
    var post, s4 := CompileExpr(p.post, s3);
    if post.None? {
      return None;
    }
    var inv, s5 := CompileExpr(p.inv, s4);
    if inv.None? {
      return None;
    }
    var variant, s6 := CompileExpr(p.variant, s5);
    if variant.None? {
      return None;
    }
    var guard, s7 := CompileExpr(p.guard, s6);
    if guard.None? {
      return None;
    }
    assert s1.names <= s7.names && s2.names <= s7.names && s3.names <= s7.names;
    assert s4.names <= s7.names && s5.names <= s7.names && s6.names <= s7.names;
    UpdatesMeanGrow(init, s1.names, s7.names, Reading(p.init));
    UpdatesMeanGrow(body, s2.names, s7.names, Reading(p.body));
    UpdatesMeanGrow(mapping, s3.names, s7.names, Reading(p.mapping));
    MeansGrows(post.value, s4.names, s7.names, Parse(p.post).e);
    MeansGrows(inv.value, s5.names, s7.names, Parse(p.inv).e);
    MeansGrows(variant.value, s6.names, s7.names, Parse(p.variant).e);
    return Some(CompiledLoop(s7, inputs, init, body, mapping, post.value, inv.value, variant.value, guard.value));
  }

  // ---------------------------------------------------------------------------
  // The walker
  // ---------------------------------------------------------------------------

  /** Slot values and presence flags that stand for the reference kernel's dictionary `env`. */
  ghost predicate Mirrors(names: seq<Name>, scalars: seq<Value>, present: seq<bool>, env: Env) {
    && |scalars| == |present| == |names|
    && (forall s | 0 <= s < |names| :: scalars[s] == Lookup(env, names[s]))
    && (forall s | 0 <= s < |names| :: present[s] <==> names[s] in env)
    && (forall x | x in env :: x in names && env[x].Scalar?)
  }

  /** The dictionary the flags and values stand for, as reported in a counterexample. */
  method SnapshotOf(names: seq<Name>, scalars: seq<Value>, present: seq<bool>, ghost env: Env) returns (r: Env)
    requires Mirrors(names, scalars, present, env)
    ensures r == env
  {
    r := map[];
    for s := 0 to |names|
      invariant forall x | x in r :: x in env && r[x] == env[x]
      invariant forall x | x in env && x in names[..s] :: x in r
    {
      if present[s] {
        r := r[names[s] := Scalar(scalars[s])];
      }
    }
    assert names[..|names|] == names;
  }

  lemma MirrorsPut(syms: SymTab, scalars: seq<Value>, present: seq<bool>, env: Env, s: nat, v: Value)
    requires syms.Valid() && Mirrors(syms.names, scalars, present, env) && s < |syms.names|
    ensures Mirrors(syms.names, scalars[s := v], present[s := true], env[syms.names[s] := Scalar(v)])
  {
    var names := syms.names;
    assert forall j | 0 <= j < |names| && j != s :: names[j] != names[s] by {
      forall j | 0 <= j < |names| && j != s
        ensures names[j] != names[s]
      {
        assert syms.index[names[j]] == j && syms.index[names[s]] == s;
      }
    }
  }

  lemma InputEnvNext(inputs: seq<(Name, nat)>, vals: Row, k: nat)
    requires |inputs| == |vals| && k < |vals|
    ensures InputEnv(inputs[..k + 1], vals[..k + 1])
         == InputEnv(inputs[..k], vals[..k])[inputs[k].0 := Scalar(V(vals[k]))]
  {
    assert inputs[..k + 1][..k] == inputs[..k] && vals[..k + 1][..k] == vals[..k];
  }

  class Walker {
    const c: CompiledLoop
    ghost const d: Derivation
    const scalars: array<Value>
    const present: array<bool>
    const scratch: array<Value>
    const mapScratch: array<Value>
    const preScalars: array<Value>
    const prePresent: array<bool>

    constructor (c: CompiledLoop, ghost d: Derivation)
      requires LoopMeans(c, d) && BindsNoIndexed(d)
      ensures Valid() && this.c == c && this.d == d
      ensures fresh(scalars) && fresh(present) && fresh(scratch) && fresh(mapScratch)
      ensures fresh(preScalars) && fresh(prePresent)
    {
      var n := |c.syms.names|;
      this.c := c;
      this.d := d;
      scalars := new Value[n](_ => X);
      present := new bool[n](_ => false);
      scratch := new Value[|c.body|](_ => X);
      mapScratch := new Value[|c.mapping|](_ => X);
      preScalars := new Value[n](_ => X);
      prePresent := new bool[n](_ => false);
    }

    ghost predicate Valid() {
      && LoopMeans(c, d) && BindsNoIndexed(d)
      && scalars.Length == present.Length == preScalars.Length == prePresent.Length == |c.syms.names|
      && scratch.Length == |c.body| && mapScratch.Length == |c.mapping|
      && scalars != scratch && scalars != mapScratch && scalars != preScalars && scratch != preScalars
      && mapScratch != preScalars && scratch != mapScratch
      && present != prePresent
    }

    ghost predicate At(env: Env)
      reads scalars, present
    {
      Mirrors(c.syms.names, scalars[..], present[..], env) && env.Keys <= Bound(d)
    }

    method EvalC(x: Compiled, ghost e: Expr, ghost env: Env) returns (v: Value)
      requires Valid() && At(env) && Means(x, c.syms.names, e) && Bases(e) !! Bound(d)
      ensures v == Eval(e, env)
    {
      var n := |c.syms.names|;
      var senv := SlotEnv(scalars[..], seq(n, _ => None));
      EvalNodeIsEval(x.nodes, c.syms.names, x.root, senv, env);
      ScalarFreeNeverRaises(e, env);
      v := EvalNode(x.nodes, x.root, senv, n).v;
    }

    method Put(s: nat, v: Value, ghost env: Env)
      requires Valid() && At(env) && s < |c.syms.names| && c.syms.names[s] in Bound(d)
      modifies scalars, present
      ensures At(env[c.syms.names[s] := Scalar(v)])
    {
      MirrorsPut(c.syms, scalars[..], present[..], env, s, v);
      ghost var a, b := scalars[..], present[..];
      scalars[s] := v;
      present[s] := true;
      assert scalars[..] == a[s := v] && present[..] == b[s := true];
    }

    method Clear()
      requires Valid()
      modifies scalars, present
      ensures At(map[])
    {
      forall s | 0 <= s < scalars.Length {
        scalars[s] := X;
      }
      forall s | 0 <= s < present.Length {
        present[s] := false;
      }
    }

    method LoadInputs(vals: Row)
      requires Valid() && |vals| == |d.inputs|
      modifies scalars, present
      ensures At(InputEnv(d.inputs, vals))
    {
      Clear();
      for k := 0 to |c.inputs|
        invariant At(InputEnv(d.inputs[..k], vals[..k]))
      {
        InputEnvNext(d.inputs, vals, k);
        Put(c.inputs[k].0, V(vals[k]), InputEnv(d.inputs[..k], vals[..k]));
      }
      assert d.inputs[..|d.inputs|] == d.inputs && vals[..|d.inputs|] == vals;
    }

    /** Load one valuation and run the init assignments in order. */
    method LoadCase(vals: Row)
      requires Valid() && |vals| == |d.inputs|
      modifies scalars, present
      ensures At(Entry(d, vals))
    {
      LoadInputs(vals);
      ghost var env := InputEnv(d.inputs, vals);
      for k := 0 to |c.init|
        invariant At(env) && Sequential(env, d.init[k..]) == Entry(d, vals)
      {
        assert d.init[k..][1..] == d.init[k + 1..];
        var v := EvalC(c.init[k].1, d.init[k].1, env);
        Put(c.init[k].0, v, env);
        env := env[d.init[k].0 := Scalar(v)];
      }
    }

    /** Evaluate every right-hand side into `buf`. */
    method Fill(cs: SlotUpdates, buf: array<Value>, ghost us: Updates, ghost env: Env)
      requires Valid() && At(env) && UpdatesMean(cs, c.syms.names, us) && UnboundAll(us, Bound(d))
      requires buf.Length == |cs| && buf != scalars
      modifies buf
      ensures forall j | 0 <= j < |cs| :: buf[j] == Eval(us[j].1, env)
    {
      for k := 0 to |cs|
        invariant forall j | 0 <= j < k :: buf[j] == Eval(us[j].1, env)
      {
        buf[k] := EvalC(cs[k].1, us[k].1, env);
      }
    }

    /** Evaluate every right-hand side into `buf`, then commit all of them. */
    method Commit(cs: SlotUpdates, buf: array<Value>, ghost us: Updates, ghost env: Env)
      requires Valid() && At(env) && UpdatesMean(cs, c.syms.names, us)
      requires UnboundAll(us, Bound(d)) && Targets(us) <= Bound(d)
      requires buf.Length == |cs| && buf != scalars
      modifies scalars, present, buf
      ensures At(Simultaneous(env, us))
    {
      Fill(cs, buf, us, env);
      ghost var now := env;
      for k := 0 to |cs|
        invariant At(now) && Land(now, env, us[k..]) == Simultaneous(env, us)
        invariant forall j | 0 <= j < |cs| :: buf[j] == Eval(us[j].1, env)
      {
        assert us[k..][1..] == us[k + 1..];
        Put(cs[k].0, buf[k], now);
        now := now[us[k].0 := Scalar(buf[k])];
      }
    }

    method StepBody(ghost env: Env)
      requires Valid() && At(env)
      modifies scalars, present, scratch
      ensures At(Simultaneous(env, d.body))
    {
      Commit(c.body, scratch, d.body, env);
    }

    method SavePre()
      requires Valid()
      modifies preScalars, prePresent
      ensures preScalars[..] == scalars[..] && prePresent[..] == present[..]
    {
      forall s | 0 <= s < scalars.Length {
        preScalars[s] := scalars[s];
      }
      forall s | 0 <= s < present.Length {
        prePresent[s] := present[s];
      }
    }

    method Shot(ghost env: Env) returns (r: Env)
      requires Valid() && At(env)
      ensures r == env
    {
      r := SnapshotOf(c.syms.names, scalars[..], present[..], env);
    }

    method ShotPre(ghost env: Env) returns (r: Env)
      requires Valid() && Mirrors(c.syms.names, preScalars[..], prePresent[..], env)
      ensures r == env
    {
      r := SnapshotOf(c.syms.names, preScalars[..], prePresent[..], env);
    }

    method CaseO1(vals: Row, ghost max: nat) returns (cex: Option<CounterExample>)
      requires Valid() && |vals| == |d.inputs|
      modifies scalars, present
      ensures cex == FailAt(O1, d, vals, max)
    {
      LoadCase(vals);
      var holds := EvalC(c.inv, d.inv, Entry(d, vals));
      if holds != V(1) {
        var shot := Shot(Entry(d, vals));
        return Some(CounterExample(O1, vals, shot, InvariantFailsAfterInit));
      }
      return None;
    }

    method CaseO2(vals: Row, max: nat) returns (cex: Option<CounterExample>)
      requires Valid() && |vals| == |d.inputs|
      modifies scalars, present, scratch, preScalars, prePresent
      ensures cex == FailAt(O2, d, vals, max)
    {
      LoadCase(vals);
      var holds := EvalC(c.inv, d.inv, Entry(d, vals));
      if holds != V(1) {
        var shot := Shot(Entry(d, vals));
        return Some(CounterExample(O2, vals, shot, InvariantFailsAtEntry));
      }
      var iters := 0;
      var guard := EvalC(c.guard, d.guard, LoopState(d, vals, 0));
      while guard == V(1) && iters < max
        invariant 0 <= iters <= max
        invariant At(LoopState(d, vals, iters))
        invariant guard == Eval(d.guard, LoopState(d, vals, iters))
        invariant O2From(d, vals, iters, max) == O2At(d, vals, max)
      {
        cex := IterateO2(vals, iters, max);
        if cex.Some? {
          return;
        }
        iters := iters + 1;
        guard := EvalC(c.guard, d.guard, LoopState(d, vals, iters));
      }
      if iters >= max && guard == V(1) {
        var shot := Shot(LoopState(d, vals, iters));
        return Some(CounterExample(O2, vals, shot, GuardStillHolds(max)));
      }
      return None;
    }

    /** One iteration of the O2 loop: step in place, report failures with the saved state. */
    method IterateO2(vals: Row, ghost k: nat, ghost max: nat) returns (cex: Option<CounterExample>)
      requires Valid() && |vals| == |d.inputs| && k < max
      requires At(LoopState(d, vals, k)) && Holds(d.guard, LoopState(d, vals, k))
      modifies scalars, present, scratch, preScalars, prePresent
      ensures cex.Some? ==> cex == O2From(d, vals, k, max)
      ensures cex.None? ==> O2From(d, vals, k, max) == O2From(d, vals, k + 1, max)
      ensures At(LoopState(d, vals, k + 1))
    {
      ghost var env := LoopState(d, vals, k);
      ghost var nxt := LoopState(d, vals, k + 1);
      var before := EvalC(c.variant, d.variant, env);
      SavePre();
      StepBody(env);
      var holds := EvalC(c.inv, d.inv, nxt);
      if holds != V(1) {
        var shot := ShotPre(env);
        return Some(CounterExample(O2, vals, shot, BodyBreaksInvariant));
      }
      var after := EvalC(c.variant, d.variant, nxt);
      if before.X? || after.X? || !(after.n < before.n) {
        var shot := ShotPre(env);
        return Some(CounterExample(O2, vals, shot, VariantNotDecreasing(before, after)));
      }
      return None;
    }

    /** One more iteration of the loop, and its guard. */
    method Advance(ghost vals: Row, ghost k: nat) returns (guard: Value)
      requires Valid() && |vals| == |d.inputs| && At(LoopState(d, vals, k))
      modifies scalars, present, scratch
      ensures At(LoopState(d, vals, k + 1)) && guard == Eval(d.guard, LoopState(d, vals, k + 1))
    {
      StepBody(LoopState(d, vals, k));
      guard := EvalC(c.guard, d.guard, LoopState(d, vals, k + 1));
    }

    /** Walk the loop of one input to where the bounded walk stops. */
    method WalkToStop(vals: Row, max: nat) returns (iters: nat)
      requires Valid() && |vals| == |d.inputs|
      modifies scalars, present, scratch
      ensures iters == Stop(d, vals, 0, max) && At(LoopState(d, vals, iters))
    {
      LoadCase(vals);
      iters := 0;
      var guard := EvalC(c.guard, d.guard, LoopState(d, vals, 0));
      while guard == V(1) && iters < max
        invariant 0 <= iters <= max
        invariant At(LoopState(d, vals, iters))
        invariant guard == Eval(d.guard, LoopState(d, vals, iters))
        invariant Stop(d, vals, iters, max) == Stop(d, vals, 0, max)
      {
        guard := Advance(vals, iters);
        iters := iters + 1;
      }
    }

    method CaseO3(vals: Row, max: nat) returns (cex: Option<CounterExample>)
      requires Valid() && |vals| == |d.inputs|
      modifies scalars, present, scratch, mapScratch
      ensures cex == FailAt(O3, d, vals, max)
    {
      var iters := WalkToStop(vals, max);
      Commit(c.mapping, mapScratch, d.mapping, LoopState(d, vals, iters));
      ghost var post := ExitBinding(d, vals, iters);
      var holds := EvalC(c.post, d.post, post);
      if holds != V(1) {
        var shot := Shot(post);
        return Some(CounterExample(O3, vals, shot, PostFails));
      }
      return None;
    }

    method Case(ob: Obligation, vals: Row, max: nat) returns (cex: Option<CounterExample>)
      requires Valid() && |vals| == |d.inputs|
      modifies scalars, present, scratch, mapScratch, preScalars, prePresent
      ensures cex == FailAt(ob, d, vals, max)
    {
      match ob
      case O1 => cex := CaseO1(vals, max);
      case O2 => cex := CaseO2(vals, max);
      case O3 => cex := CaseO3(vals, max);
    }

    /** Check one more row; a failure is the failure of the whole sweep. */
    method Visit(ob: Obligation, row: Row, max: nat, ghost rows: seq<Row>, ghost k: nat) returns (cex: Option<CounterExample>)
      requires Valid() && RowsFit(d, rows) && k < |rows| && row == rows[k] && FirstFail(ob, d, rows[..k], max) == None
      modifies scalars, present, scratch, mapScratch, preScalars, prePresent
      ensures FirstFail(ob, d, rows[..k + 1], max) == cex
      ensures cex.Some? ==> FirstFail(ob, d, rows, max) == cex
    {
      cex := Case(ob, row, max);
      FirstFailStep(ob, d, rows, max, k);
      if cex.Some? {
        FirstFailKeeps(ob, d, rows, max, k + 1);
      }
    }

    /** `for_each_valuation` over the battery. */
    method ForEachSampled(ob: Obligation, rows: seq<Row>, max: nat) returns (cex: Option<CounterExample>)
      requires Valid() && RowsFit(d, rows)
      modifies scalars, present, scratch, mapScratch, preScalars, prePresent
      ensures cex == FirstFail(ob, d, rows, max)
    {
      for i := 0 to |rows|
        invariant FirstFail(ob, d, rows[..i], max) == None
      {
        cex := Visit(ob, rows[i], max, rows, i);
        if cex.Some? {
          return;
        }
      }
      assert rows[..|rows|] == rows;
      return None;
    }

    /** `for_each_valuation` by odometer: exactly the rows of the product, in its order. */
    method ForEachTurned(ob: Obligation, max: nat) returns (cex: Option<CounterExample>)
      requires Valid()
      modifies scalars, present, scratch, mapScratch, preScalars, prePresent
      ensures RowsFit(d, Product(d.Sizes()))
      ensures cex == FirstFail(ob, d, Product(d.Sizes()), max)
    {
      ProductTurns(d.Sizes());
      assert RowsFit(d, Product(d.Sizes()));
      var sizes := seq(|c.inputs|, k requires 0 <= k < |c.inputs| => c.inputs[k].1);
      assert sizes == d.Sizes();
      var odo := new Odometer(sizes);
      cex := TurnThrough(odo, ob, max, Product(d.Sizes()));
    }

    /** One reading of the odometer, and the turn to the next. */
    method VisitAndTurn(odo: Odometer, ob: Obligation, max: nat, ghost rows: seq<Row>, ghost k: nat)
      returns (cex: Option<CounterExample>, more: bool)
      requires Valid() && RowsFit(d, rows) && odo.sizes == d.Sizes() && Turning(d.Sizes(), rows)
      requires k < |rows| && odo.cur.Length == |odo.sizes| && odo.cur[..] == rows[k]
      requires FirstFail(ob, d, rows[..k], max) == None
      modifies scalars, present, scratch, mapScratch, preScalars, prePresent, odo.cur
      ensures FirstFail(ob, d, rows[..k + 1], max) == cex
      ensures cex.Some? ==> FirstFail(ob, d, rows, max) == cex
      ensures cex.None? ==> more == (k + 1 < |rows|)
      ensures cex.None? && more ==> odo.cur[..] == rows[k + 1]
    {
      more := false;
      TurnFollows(odo.sizes, rows, k);
      cex := Visit(ob, odo.cur[..], max, rows, k);
      if cex.None? {
        more := odo.Turn();
      }
    }

    method TurnThrough(odo: Odometer, ob: Obligation, max: nat, ghost rows: seq<Row>)
      returns (cex: Option<CounterExample>)
      requires Valid() && RowsFit(d, rows) && odo.sizes == d.Sizes() && Turning(d.Sizes(), rows)
      requires odo.cur.Length == |odo.sizes| && odo.cur[..] == rows[0]
      modifies scalars, present, scratch, mapScratch, preScalars, prePresent, odo.cur
      ensures cex == FirstFail(ob, d, rows, max)
    {
      ghost var k := 0;
      while true
        invariant 0 <= k < |rows| && odo.cur[..] == rows[k]
        invariant FirstFail(ob, d, rows[..k], max) == None
        decreases |rows| - k
      {
        var more;
        cex, more := VisitAndTurn(odo, ob, max, rows, k);
        if cex.Some? {
          return;
        }
        if !more {
          assert rows[..k + 1] == rows;
          return None;
        }
        k := k + 1;
      }
    }
  }

  lemma TurnFollows(sizes: seq<nat>, rows: seq<Row>, k: nat)
    requires Turning(sizes, rows) && k < |rows|
    ensures |rows[k]| == |sizes| && InBox(rows[k], sizes)
    ensures Succ(sizes, rows[k]) == if k == |rows| - 1 then None else Some(rows[k + 1])
  {
    assert InBox(rows[k], sizes);
    if k < |rows| - 1 {
      assert TurnsAt(sizes, rows, k);
    }
  }

  // ---------------------------------------------------------------------------
  // The entry point
  // ---------------------------------------------------------------------------

  lemma {:induction false} Pow2Grows(a: nat, b: nat)
    requires a <= b
    ensures Pow2(a) <= Pow2(b)
    decreases b
  {
    if a < b {
      Pow2Grows(a, b - 1);
    }
  }

  lemma {:induction false} Pow2Adds(a: nat, b: nat)
    ensures Pow2(a + b) == Pow2(a) * Pow2(b)
  {
    if a > 0 {
      Pow2Adds(a - 1, b);
      assert Pow2(a) * Pow2(b) == 2 * (Pow2(a - 1) * Pow2(b));
    }
  }

  lemma Pow2Values()
    ensures Pow2(16) == 0x1_0000 && Pow2(32) == 0x1_0000_0000 && Pow2(63) == TWO63
  {
    assert Pow2(4) == 16;
    Pow2Adds(4, 4);
    Pow2Adds(8, 8);
    Pow2Adds(16, 16);
    Pow2Adds(16, 8);
    Pow2Adds(24, 4);
    assert Pow2(31) == 2 * Pow2(30) == 4 * Pow2(29) == 8 * Pow2(28);
    Pow2Adds(31, 32);
  }

  /**
    `discharge_loop_obligations`. None stands for the exception both sides raise on text that
    runs out of tokens; here it is raised before the first sweep, whichever expression is short.
    */
  method NativeDischarge(p: LoopParams, threshold: nat, max: nat) returns (r: Option<Verdict>)
    requires threshold < TWO63 && forall k | 0 <= k < |p.inputs| :: p.inputs[k].1 <= 63
    requires Readable(p) ==> BindsNoIndexed(Read(p))
    ensures r.Some? <==> Readable(p)
    ensures r.Some? ==> r.value == Discharge(Read(p), threshold, max)
  {
    var compiled := CompileLoop(p);
    if compiled.None? {
      return None;
    }
    ghost var d := Read(p);
    var c := compiled.value;
    var sizes := seq(|c.inputs|, k requires 0 <= k < |c.inputs| => c.inputs[k].1);
    assert sizes == d.Sizes();
    forall k | 0 <= k < |sizes|
      ensures sizes[k] <= TWO63
    {
      Pow2Grows(p.inputs[k].1, 63);
      Pow2Values();
    }
    var total := TotalCases(sizes, threshold);
    var exhaustive := total <= threshold;
    ValuationsFit(d, threshold);
    ProductLength(sizes);
    var rows: seq<Row> := [];
    if !exhaustive {
      rows := SampledBattery(sizes);
    }
    var mode := if exhaustive then ExhaustiveProof else Sampled;
    var cases := if exhaustive then total else |rows|;
    var w := new Walker(c, d);
    var v := Sweeps(w, exhaustive, rows, mode, cases, max, Valuations(d.Sizes(), threshold));
    return Some(v);
  }

  method Sweep(w: Walker, ob: Obligation, exhaustive: bool, rows: seq<Row>, max: nat, ghost vs: seq<Row>)
    returns (cex: Option<CounterExample>)
    requires w.Valid() && RowsFit(w.d, vs)
    requires vs == if exhaustive then Product(w.d.Sizes()) else rows
    modifies w.scalars, w.present, w.scratch, w.mapScratch, w.preScalars, w.prePresent
    ensures cex == FirstFail(ob, w.d, vs, max)
  {
    if exhaustive {
      cex := w.ForEachTurned(ob, max);
    } else {
      cex := w.ForEachSampled(ob, rows, max);
    }
  }

  method Sweeps(w: Walker, exhaustive: bool, rows: seq<Row>, mode: Mode, cases: nat, max: nat, ghost vs: seq<Row>)
    returns (r: Verdict)
    requires w.Valid() && RowsFit(w.d, vs) && cases == |vs|
    requires vs == if exhaustive then Product(w.d.Sizes()) else rows
    modifies w.scalars, w.present, w.scratch, w.mapScratch, w.preScalars, w.prePresent
    ensures r == Conclude(w.d, vs, mode, max)
  {
    var cex := Sweep(w, O1, exhaustive, rows, max, vs);
    if cex.Some? {
      return Verdict(false, mode, cases, false, false, false, cex);
    }
    cex := Sweep(w, O2, exhaustive, rows, max, vs);
    if cex.Some? {
      return Verdict(false, mode, cases, true, false, false, cex);
    }
    cex := Sweep(w, O3, exhaustive, rows, max, vs);
    if cex.Some? {
      return Verdict(false, mode, cases, true, true, false, cex);
    }
    return Verdict(true, mode, cases, true, true, true, None);
  }
}
