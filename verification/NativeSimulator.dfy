/**
  The native cycle engine: every composed expression compiled once, the state in slots, scratch
  buffers for the nonblocking commits. Proved: on specs whose memories are written and read only
  by index, each slot-based edge is the edge of the reference simulator, and the rows are the
  same, undefined outputs omitted.
  */
module NativeSimulator {
  import opened Expressions
  import opened Grammar
  import opened NativeExpressions
  import opened Simulator

  /** A composed update with its index, if any, already split off. */
  datatype UpdateSpec = UpdateSpec(base: Name, idx: Option<Text>, rhs: Text)

  datatype SimSpec = SimSpec(
    widths: map<Name, int>, depths: seq<(Name, nat)>,
    clocked: seq<UpdateSpec>, comb: seq<(Name, Text)>, reset: seq<(Name, Text)>)

  datatype EdgeIn = EdgeIn(inputs: seq<(Name, Value)>, isReset: bool, observe: bool)

  type MemWrites = seq<(Name, Expr, Expr)>

  // ---------------------------------------------------------------------------
  // What a spec reads as
  // ---------------------------------------------------------------------------

  predicate Parses(s: Text) {
    Parse(s).Good?
  }

  predicate ClockedParse(us: seq<UpdateSpec>) {
    forall k | 0 <= k < |us| :: Parses(us[k].rhs) && (us[k].idx.Some? ==> Parses(us[k].idx.value))
  }

  predicate Readable(sp: SimSpec) {
    && ClockedParse(sp.clocked)
    && (forall k | 0 <= k < |sp.comb| :: Parses(sp.comb[k].1))
    && (forall k | 0 <= k < |sp.reset| :: Parses(sp.reset[k].1))
  }

  function Memories(sp: SimSpec): set<Name> {
    set k | 0 <= k < |sp.depths| :: sp.depths[k].0
  }

  function ReadUpdate(u: UpdateSpec): (Lhs, Expr)
    requires Parses(u.rhs) && (u.idx.Some? ==> Parses(u.idx.value))
  {
    (match u.idx case None => Reg(u.base) case Some(i) => Elem(u.base, Parse(i).e), Parse(u.rhs).e)
  }

  function ReadClocked(us: seq<UpdateSpec>): (r: seq<(Lhs, Expr)>)
    requires ClockedParse(us)
    ensures |r| == |us|
  {
    seq(|us|, k requires 0 <= k < |us| => ReadUpdate(us[k]))
  }

  function ReadScalar(u: (Name, Text)): (Name, Expr)
    requires Parses(u.1)
  {
    (u.0, Parse(u.1).e)
  }

  function ReadScalars(us: seq<(Name, Text)>): (r: Updates)
    requires forall k | 0 <= k < |us| :: Parses(us[k].1)
    ensures |r| == |us|
  {
    seq(|us|, k requires 0 <= k < |us| => ReadScalar(us[k]))
  }

  /** The register part of a list of updates, in order. */
  function RegPart(us: seq<(Lhs, Expr)>): Updates {
    if us == [] then [] else
      var (l, e) := us[|us| - 1];
      RegPart(us[..|us| - 1]) + (match l case Reg(x) => [(x, e)] case Elem(_, _) => [])
  }

  /** The memory part: memory, index, value. */
  function MemPart(us: seq<(Lhs, Expr)>): MemWrites {
    if us == [] then [] else
      var (l, e) := us[|us| - 1];
      MemPart(us[..|us| - 1]) + (match l case Reg(_) => [] case Elem(b, i) => [(b, i, e)])
  }

  /** The reference simulator digested the same spec. */
  ghost predicate Digests(cfg: Config, sp: SimSpec)
    requires Readable(sp)
  {
    && cfg.widths == sp.widths
    && cfg.clocked == ReadClocked(sp.clocked)
    && cfg.comb == ReadScalars(sp.comb)
    && RegPart(ResetTargets(cfg, cfg.reset)) == ReadScalars(sp.reset)
  }

  // ---------------------------------------------------------------------------
  // Memories are written and read by index only
  // ---------------------------------------------------------------------------

  predicate ScalarTargets(us: Updates, mems: set<Name>) {
    forall k | 0 <= k < |us| :: us[k].0 !in mems && Bases(us[k].1) <= mems
  }

  predicate MemTargets(ms: MemWrites, mems: set<Name>) {
    forall k | 0 <= k < |ms| :: ms[k].0 in mems && Bases(ms[k].1) <= mems && Bases(ms[k].2) <= mems
  }

  ghost predicate ByIndexOnly(cfg: Config, mems: set<Name>) {
    && ScalarTargets(cfg.comb, mems)
    && ScalarTargets(RegPart(cfg.clocked), mems) && MemTargets(MemPart(cfg.clocked), mems)
    && ScalarTargets(RegPart(ResetTargets(cfg, cfg.reset)), mems)
    && forall x | x in cfg.widths :: cfg.widths[x] < 64
  }

  /** Exactly the declared memories are bound to cells. */
  ghost predicate HasMems(s: Env, mems: set<Name>) {
    forall x: Name :: x in mems <==> x in s && s[x].Memory?
  }

  lemma {:induction false} NeverRaises(e: Expr, s: Env, mems: set<Name>)
    requires HasMems(s, mems) && Bases(e) <= mems
    ensures !LazyRaises(e, s)
  {
    match e
    case Const(_) =>
    case Var(_) =>
    case Index(x, i) =>
      assert x in mems;
      NeverRaises(i, s, mems);
    case Ite(c, t, f) =>
      NeverRaises(c, s, mems);
      NeverRaises(t, s, mems);
      NeverRaises(f, s, mems);
    case Bin(_, a, b) =>
      NeverRaises(a, s, mems);
      NeverRaises(b, s, mems);
    case Un(_, a) => NeverRaises(a, s, mems);
  }

  // ---------------------------------------------------------------------------
  // Registers first, memories after: the two parts of a commit
  // ---------------------------------------------------------------------------

  function CommitRegs(widths: map<Name, int>, base: Env, pre: Env, us: Updates): Env {
    if us == [] then base
    else
      var (x, e) := us[|us| - 1];
      CommitRegs(widths, base, pre, us[..|us| - 1])[x := Scalar(NewValue(widths, pre, x, e))]
  }

  function CommitMems(widths: map<Name, int>, base: Env, pre: Env, ms: MemWrites): Env {
    if ms == [] then base
    else
      var (b, i, e) := ms[|ms| - 1];
      WriteCell(CommitMems(widths, base, pre, ms[..|ms| - 1]), b, Eval(i, pre), NewValue(widths, pre, b, e))
  }

  lemma {:induction false} LandRegsAppend(widths: map<Name, int>, base: Env, pre: Env, us: seq<(Lhs, Expr)>, u: (Lhs, Expr))
    ensures LandRegs(widths, base, pre, us + [u]) ==
      match u.0
      case Reg(x) => LandRegs(widths, base, pre, us)[x := Scalar(NewValue(widths, pre, x, u.1))]
      case Elem(_, _) => LandRegs(widths, base, pre, us)
    decreases us
  {
    if us == [] {
      assert [] + [u] == [u] && [u][1..] == [];
    } else {
      assert (us + [u])[1..] == us[1..] + [u];
      var next := match us[0].0
        case Reg(x) => base[x := Scalar(NewValue(widths, pre, x, us[0].1))]
        case Elem(_, _) => base;
      LandRegsAppend(widths, next, pre, us[1..], u);
    }
  }

  lemma {:induction false} LandCellsAppend(widths: map<Name, int>, s: Env, pre: Env, us: seq<(Lhs, Expr)>, u: (Lhs, Expr))
    ensures LandCells(widths, s, pre, us + [u]) ==
      match u.0
      case Reg(_) => LandCells(widths, s, pre, us)
      case Elem(b, i) => WriteCell(LandCells(widths, s, pre, us), b, Eval(i, pre), NewValue(widths, pre, b, u.1))
    decreases us
  {
    if us == [] {
      assert [] + [u] == [u] && [u][1..] == [];
    } else {
      assert (us + [u])[1..] == us[1..] + [u];
      var next := match us[0].0
        case Reg(_) => s
        case Elem(b, i) => WriteCell(s, b, Eval(i, pre), NewValue(widths, pre, b, us[0].1));
      LandCellsAppend(widths, next, pre, us[1..], u);
    }
  }

  lemma CommitRegsAppend(widths: map<Name, int>, base: Env, pre: Env, us: Updates, u: (Name, Expr))
    ensures CommitRegs(widths, base, pre, us + [u]) ==
      CommitRegs(widths, base, pre, us)[u.0 := Scalar(NewValue(widths, pre, u.0, u.1))]
  {
    assert (us + [u])[..|us|] == us;
  }

  lemma CommitMemsAppend(widths: map<Name, int>, base: Env, pre: Env, ms: MemWrites, m: (Name, Expr, Expr))
    ensures CommitMems(widths, base, pre, ms + [m]) ==
      WriteCell(CommitMems(widths, base, pre, ms), m.0, Eval(m.1, pre), NewValue(widths, pre, m.0, m.2))
  {
    assert (ms + [m])[..|ms|] == ms;
  }

  lemma {:induction false} RegsPart(widths: map<Name, int>, base: Env, pre: Env, us: seq<(Lhs, Expr)>)
    ensures LandRegs(widths, base, pre, us) == CommitRegs(widths, base, pre, RegPart(us))
    decreases |us|
  {
    if us != [] {
      var n := |us| - 1;
      RegsPart(widths, base, pre, us[..n]);
      LandRegsAppend(widths, base, pre, us[..n], us[n]);
      assert us == us[..n] + [us[n]];
      match us[n].0
      case Reg(x) => CommitRegsAppend(widths, base, pre, RegPart(us[..n]), (x, us[n].1));
      case Elem(_, _) => assert RegPart(us) == RegPart(us[..n]);
    }
  }

  lemma {:induction false} CellsPart(widths: map<Name, int>, base: Env, pre: Env, us: seq<(Lhs, Expr)>)
    ensures LandCells(widths, base, pre, us) == CommitMems(widths, base, pre, MemPart(us))
    decreases |us|
  {
    if us != [] {
      var n := |us| - 1;
      CellsPart(widths, base, pre, us[..n]);
      LandCellsAppend(widths, base, pre, us[..n], us[n]);
      assert us == us[..n] + [us[n]];
      match us[n].0
      case Reg(_) => assert MemPart(us) == MemPart(us[..n]);
      case Elem(b, i) => CommitMemsAppend(widths, base, pre, MemPart(us[..n]), (b, i, us[n].1));
    }
  }

  // ---------------------------------------------------------------------------
  // The compiled spec
  // ---------------------------------------------------------------------------

  datatype ScalarUpd = ScalarUpd(slot: nat, w: int, rhs: Compiled)

  datatype MemUpd = MemUpd(slot: nat, w: int, idx: Compiled, rhs: Compiled)

  datatype CompiledSim = CompiledSim(
    syms: SymTab, clockedScalars: seq<ScalarUpd>, clockedMems: seq<MemUpd>,
    comb: seq<ScalarUpd>, reset: seq<ScalarUpd>, mems: seq<(nat, nat)>, outs: seq<nat>)

  /** -1 stands for no declared width. */
  function WidthSlot(widths: map<Name, int>, x: Name): int {
    if x in widths then widths[x] else -1
  }

  function Masked(v: Value, w: int): Value {
    if v.X? || w <= 0 || w >= 64 then v else V(v.n % Pow2(w))
  }

  lemma MaskedIsMask(v: Value, widths: map<Name, int>, x: Name)
    requires x in widths ==> widths[x] < 64
    ensures Masked(v, WidthSlot(widths, x)) == Mask(v, WidthOf(widths, x))
  {
  }

  ghost predicate ScalarMeans(u: ScalarUpd, names: seq<Name>, widths: map<Name, int>, x: Name, e: Expr) {
    u.slot < |names| && names[u.slot] == x && u.w == WidthSlot(widths, x) && Means(u.rhs, names, e)
  }

  ghost predicate ScalarsMean(us: seq<ScalarUpd>, names: seq<Name>, widths: map<Name, int>, es: Updates) {
    |us| == |es| && forall k | 0 <= k < |es| :: ScalarMeans(us[k], names, widths, es[k].0, es[k].1)
  }

  ghost predicate MemMeans(u: MemUpd, names: seq<Name>, widths: map<Name, int>, m: (Name, Expr, Expr)) {
    && u.slot < |names| && names[u.slot] == m.0 && u.w == WidthSlot(widths, m.0)
    && Means(u.idx, names, m.1) && Means(u.rhs, names, m.2)
  }

  ghost predicate MemsMean(us: seq<MemUpd>, names: seq<Name>, widths: map<Name, int>, ms: MemWrites) {
    |us| == |ms| && forall k | 0 <= k < |ms| :: MemMeans(us[k], names, widths, ms[k])
  }

  ghost predicate SimMeans(c: CompiledSim, cfg: Config) {
    && c.syms.Valid()
    && ScalarsMean(c.clockedScalars, c.syms.names, cfg.widths, RegPart(cfg.clocked))
    && MemsMean(c.clockedMems, c.syms.names, cfg.widths, MemPart(cfg.clocked))
    && ScalarsMean(c.comb, c.syms.names, cfg.widths, cfg.comb)
    && ScalarsMean(c.reset, c.syms.names, cfg.widths, RegPart(ResetTargets(cfg, cfg.reset)))
  }

  // ---------------------------------------------------------------------------
  // Slot writes
  // ---------------------------------------------------------------------------

  /** The slots show the state, and exactly the memories are arrays. */
  ghost predicate Mirrors(env: SlotEnv, syms: SymTab, s: Env, mems: set<Name>) {
    syms.Valid() && Represents(env, syms.names, s) && HasMems(s, mems)
  }

  function SetScalar(env: SlotEnv, slot: nat, v: Value): SlotEnv
    requires slot < |env.scalars|
  {
    env.(scalars := env.scalars[slot := v])
  }

  lemma ScalarWrite(env: SlotEnv, syms: SymTab, s: Env, mems: set<Name>, slot: nat, v: Value)
    requires Mirrors(env, syms, s, mems) && slot < |syms.names| && syms.names[slot] !in mems
    ensures Mirrors(SetScalar(env, slot, v), syms, s[syms.names[slot] := Scalar(v)], mems)
  {
    var x, names := syms.names[slot], syms.names;
    var env', s' := SetScalar(env, slot, v), s[x := Scalar(v)];
    forall k | 0 <= k < |names|
      ensures env'.scalars[k] == Lookup(s', names[k])
      ensures env'.arrays[k] == if names[k] in s' && s'[names[k]].Memory? then Some(s'[names[k]].cells) else None
    {
      if names[k] == x {
        assert syms.index[names[k]] == k && syms.index[x] == slot;
      }
    }
  }

  function WriteSlot(env: SlotEnv, slot: nat, idx: Value, v: Value): SlotEnv
    requires slot < |env.arrays|
  {
    if idx.X? || env.arrays[slot].None? || idx.n >= |env.arrays[slot].value| then env
    else env.(arrays := env.arrays[slot := Some(env.arrays[slot].value[idx.n := v])])
  }

  lemma CellWrite(env: SlotEnv, syms: SymTab, s: Env, mems: set<Name>, slot: nat, idx: Value, v: Value)
    requires Mirrors(env, syms, s, mems) && slot < |syms.names|
    ensures Mirrors(WriteSlot(env, slot, idx, v), syms, WriteCell(s, syms.names[slot], idx, v), mems)
  {
    var x, names := syms.names[slot], syms.names;
    var env', s' := WriteSlot(env, slot, idx, v), WriteCell(s, x, idx, v);
    assert env.arrays[slot] == if x in s && s[x].Memory? then Some(s[x].cells) else None;
    forall k | 0 <= k < |names|
      ensures env'.scalars[k] == Lookup(s', names[k])
      ensures env'.arrays[k] == if names[k] in s' && s'[names[k]].Memory? then Some(s'[names[k]].cells) else None
    {
      if names[k] == x {
        assert syms.index[names[k]] == k && syms.index[x] == slot;
      }
    }
  }

  /** A compiled expression over the slots has the value of its expression in the state. */
  lemma SlotValue(c: Compiled, env: SlotEnv, syms: SymTab, s: Env, mems: set<Name>, e: Expr)
    requires Mirrors(env, syms, s, mems) && Means(c, syms.names, e) && Bases(e) <= mems
    ensures EvalNode(c.nodes, c.root, env, |syms.names|) == Val(Eval(e, s))
  {
    EvalNodeIsEval(c.nodes, syms.names, c.root, env, s);
    NeverRaises(e, s, mems);
  }

  // ---------------------------------------------------------------------------
  // The runner
  // ---------------------------------------------------------------------------

  /** The inputs of an edge, driven one by one. */
  function DriveAll(s: Env, inputs: seq<(Name, Value)>): Env {
    if inputs == [] then s
    else DriveAll(s, inputs[..|inputs| - 1])[inputs[|inputs| - 1].0 := Scalar(inputs[|inputs| - 1].1)]
  }

  predicate InputsApart(inputs: seq<(Name, Value)>, mems: set<Name>) {
    forall k | 0 <= k < |inputs| :: inputs[k].0 !in mems
  }

  lemma ObserveNext(s: Env, ports: seq<Name>, k: nat)
    requires k < |ports|
    ensures var v := Lookup(s, ports[k]);
      Simulator.Observe(s, ports[..k + 1]) ==
      if v.V? then Simulator.Observe(s, ports[..k])[ports[k] := v.n] else Simulator.Observe(s, ports[..k])
  {
    assert ports[..k + 1] == ports[..k] + [ports[k]];
  }

  class Runner {
    const c: CompiledSim
    var env: SlotEnv

    constructor (c: CompiledSim, env: SlotEnv)
      ensures this.c == c && this.env == env
    {
      this.c := c;
      this.env := env;
    }

    method DriveInputs(inputs: seq<(Name, Value)>, ghost s: Env, ghost mems: set<Name>)
      requires Mirrors(env, c.syms, s, mems) && InputsApart(inputs, mems)
      modifies this
      ensures Mirrors(env, c.syms, DriveAll(s, inputs), mems)
    {
      for k := 0 to |inputs|
        invariant Mirrors(env, c.syms, DriveAll(s, inputs[..k]), mems)
      {
        assert inputs[..k + 1][..k] == inputs[..k];
        var (x, v) := inputs[k];
        ghost var t := DriveAll(s, inputs[..k]);
        if x in c.syms.index {
          ScalarWrite(env, c.syms, t, mems, c.syms.index[x], v);
          env := SetScalar(env, c.syms.index[x], v);
        } else {
          Unreferenced(env, c.syms, t, mems, x, v);
        }
      }
      assert inputs[..|inputs|] == inputs;
    }

    method RecomputeComb(ghost cfg: Config, ghost s: Env, ghost mems: set<Name>)
      requires SimMeans(c, cfg) && ByIndexOnly(cfg, mems) && Mirrors(env, c.syms, s, mems)
      modifies this
      ensures Mirrors(env, c.syms, Settle(cfg, s), mems)
    {
      var k := 0;
      while k < |c.comb| + 1
        invariant 0 <= k <= |c.comb| + 1
        invariant Mirrors(env, c.syms, Sweeps(cfg.comb, cfg.widths, s, k), mems)
      {
        var changed := Sweep(cfg.comb, cfg.widths, Sweeps(cfg.comb, cfg.widths, s, k), mems);
        k := k + 1;
        if !changed {
          StillSettled(cfg.comb, cfg.widths, s, k, |c.comb| + 1);
          return;
        }
      }
    }

    /** Recompute one definition in place. */
    method Define(u: ScalarUpd, ghost widths: map<Name, int>, ghost x: Name, ghost e: Expr, ghost s: Env, ghost mems: set<Name>)
      returns (changed: bool)
      requires Mirrors(env, c.syms, s, mems) && ScalarMeans(u, c.syms.names, widths, x, e)
      requires x !in mems && Bases(e) <= mems && (x in widths ==> widths[x] < 64)
      modifies this
      ensures Mirrors(env, c.syms, Put(s, x, NewValue(widths, s, x, e)), mems)
      ensures !changed ==> Put(s, x, NewValue(widths, s, x, e)) == s
    {
      SlotValue(u.rhs, env, c.syms, s, mems, e);
      MaskedIsMask(Eval(e, s), widths, x);
      var nv := Masked(EvalNode(u.rhs.nodes, u.rhs.root, env, |c.syms.names|).v, u.w);
      changed := nv != env.scalars[u.slot];
      if changed {
        ScalarWrite(env, c.syms, s, mems, u.slot, nv);
        env := SetScalar(env, u.slot, nv);
      }
    }

    /** Recompute the `j`th definition. */
    method DefineAt(j: nat, ghost defs: Updates, ghost widths: map<Name, int>, ghost s: Env, ghost mems: set<Name>)
      returns (changed: bool)
      requires ScalarsMean(c.comb, c.syms.names, widths, defs) && ScalarTargets(defs, mems) && j < |c.comb|
      requires Mirrors(env, c.syms, SweepTo(defs, widths, s, j), mems) && forall x | x in widths :: widths[x] < 64
      modifies this
      ensures Mirrors(env, c.syms, SweepTo(defs, widths, s, j + 1), mems)
      ensures !changed ==> SweepTo(defs, widths, s, j + 1) == SweepTo(defs, widths, s, j)
    {
      changed := Define(c.comb[j], widths, defs[j].0, defs[j].1, SweepTo(defs, widths, s, j), mems);
    }

    /** One sweep over the definitions, committing in place. */
    method Sweep(ghost defs: Updates, ghost widths: map<Name, int>, ghost s: Env, ghost mems: set<Name>) returns (changed: bool)
      requires ScalarsMean(c.comb, c.syms.names, widths, defs) && ScalarTargets(defs, mems) && Mirrors(env, c.syms, s, mems)
      requires forall x | x in widths :: widths[x] < 64
      modifies this
      ensures Mirrors(env, c.syms, Simulator.Sweep(defs, widths, s), mems)
      ensures !changed ==> Simulator.Sweep(defs, widths, s) == s
    {
      changed := false;
      for j := 0 to |c.comb|
        invariant Mirrors(env, c.syms, SweepTo(defs, widths, s, j), mems)
        invariant !changed ==> SweepTo(defs, widths, s, j) == s
      {
        var now := DefineAt(j, defs, widths, s, mems);
        changed := changed || now;
      }
    }

    /** Evaluate scalar targets against the old slots into a buffer. */
    method BufferScalars(us: seq<ScalarUpd>, ghost widths: map<Name, int>, ghost es: Updates, ghost s: Env, ghost mems: set<Name>)
      returns (buf: seq<Value>)
      requires Mirrors(env, c.syms, s, mems) && ScalarsMean(us, c.syms.names, widths, es) && ScalarTargets(es, mems)
      requires forall x | x in widths :: widths[x] < 64
      ensures |buf| == |us| && forall k | 0 <= k < |us| :: buf[k] == NewValue(widths, s, es[k].0, es[k].1)
    {
      buf := [];
      for k := 0 to |us|
        invariant |buf| == k && forall i | 0 <= i < k :: buf[i] == NewValue(widths, s, es[i].0, es[i].1)
      {
        assert ScalarMeans(us[k], c.syms.names, widths, es[k].0, es[k].1);
        SlotValue(us[k].rhs, env, c.syms, s, mems, es[k].1);
        MaskedIsMask(Eval(es[k].1, s), widths, es[k].0);
        buf := buf + [Masked(EvalNode(us[k].rhs.nodes, us[k].rhs.root, env, |c.syms.names|).v, us[k].w)];
      }
    }

    /** Commit a buffer of scalar values in order. */
    method CommitScalars(us: seq<ScalarUpd>, buf: seq<Value>, ghost widths: map<Name, int>, ghost es: Updates,
                         ghost base: Env, ghost pre: Env, ghost mems: set<Name>)
      requires Mirrors(env, c.syms, base, mems) && ScalarsMean(us, c.syms.names, widths, es) && ScalarTargets(es, mems)
      requires |buf| == |us| && forall k | 0 <= k < |us| :: buf[k] == NewValue(widths, pre, es[k].0, es[k].1)
      modifies this
      ensures Mirrors(env, c.syms, CommitRegs(widths, base, pre, es), mems)
    {
      for k := 0 to |us|
        invariant Mirrors(env, c.syms, CommitRegs(widths, base, pre, es[..k]), mems)
      {
        assert es[..k + 1][..k] == es[..k];
        assert ScalarMeans(us[k], c.syms.names, widths, es[k].0, es[k].1);
        ScalarWrite(env, c.syms, CommitRegs(widths, base, pre, es[..k]), mems, us[k].slot, buf[k]);
        env := SetScalar(env, us[k].slot, buf[k]);
      }
      assert es[..|us|] == es;
    }

    method BufferMems(us: seq<MemUpd>, ghost widths: map<Name, int>, ghost ms: MemWrites, ghost s: Env, ghost mems: set<Name>)
      returns (idxs: seq<Value>, vals: seq<Value>)
      requires Mirrors(env, c.syms, s, mems) && MemsMean(us, c.syms.names, widths, ms) && MemTargets(ms, mems)
      requires forall x | x in widths :: widths[x] < 64
      ensures |idxs| == |vals| == |us|
      ensures forall k | 0 <= k < |us| :: idxs[k] == Eval(ms[k].1, s) && vals[k] == NewValue(widths, s, ms[k].0, ms[k].2)
    {
      idxs, vals := [], [];
      for k := 0 to |us|
        invariant |idxs| == |vals| == k
        invariant forall i | 0 <= i < k :: idxs[i] == Eval(ms[i].1, s) && vals[i] == NewValue(widths, s, ms[i].0, ms[i].2)
      {
        assert MemMeans(us[k], c.syms.names, widths, ms[k]);
        SlotValue(us[k].idx, env, c.syms, s, mems, ms[k].1);
        SlotValue(us[k].rhs, env, c.syms, s, mems, ms[k].2);
        MaskedIsMask(Eval(ms[k].2, s), widths, ms[k].0);
        idxs := idxs + [EvalNode(us[k].idx.nodes, us[k].idx.root, env, |c.syms.names|).v];
        vals := vals + [Masked(EvalNode(us[k].rhs.nodes, us[k].rhs.root, env, |c.syms.names|).v, us[k].w)];
      }
    }

    method CommitCells(us: seq<MemUpd>, idxs: seq<Value>, vals: seq<Value>, ghost widths: map<Name, int>, ghost ms: MemWrites,
                       ghost base: Env, ghost pre: Env, ghost mems: set<Name>)
      requires Mirrors(env, c.syms, base, mems) && MemsMean(us, c.syms.names, widths, ms)
      requires |idxs| == |vals| == |us|
      requires forall k | 0 <= k < |us| :: idxs[k] == Eval(ms[k].1, pre) && vals[k] == NewValue(widths, pre, ms[k].0, ms[k].2)
      modifies this
      ensures Mirrors(env, c.syms, CommitMems(widths, base, pre, ms), mems)
    {
      for k := 0 to |us|
        invariant Mirrors(env, c.syms, CommitMems(widths, base, pre, ms[..k]), mems)
      {
        assert ms[..k + 1][..k] == ms[..k];
        assert MemMeans(us[k], c.syms.names, widths, ms[k]);
        CellWrite(env, c.syms, CommitMems(widths, base, pre, ms[..k]), mems, us[k].slot, idxs[k], vals[k]);
        env := WriteSlot(env, us[k].slot, idxs[k], vals[k]);
      }
      assert ms[..|us|] == ms;
    }

    /** `Runner::edge` */
    method Edge(inputs: seq<(Name, Value)>, isReset: bool, ghost cfg: Config, ghost s: Env, ghost mems: set<Name>, ghost vec: Vector)
      requires SimMeans(c, cfg) && ByIndexOnly(cfg, mems) && Mirrors(env, c.syms, s, mems)
      requires InputsApart(inputs, mems) && DriveAll(s, inputs) == SetInputs(cfg, s, vec)
      modifies this
      ensures Mirrors(env, c.syms, Simulator.Edge(cfg, s, vec, isReset), mems)
    {
      DriveInputs(inputs, s, mems);
      RecomputeComb(cfg, SetInputs(cfg, s, vec), mems);
      ghost var seen := Seen(cfg, s, vec);
      if isReset {
        ghost var targets := ResetTargets(cfg, cfg.reset);
        var buf := BufferScalars(c.reset, cfg.widths, RegPart(targets), seen, mems);
        CommitScalars(c.reset, buf, cfg.widths, RegPart(targets), seen, seen, mems);
        RegsPart(cfg.widths, seen, seen, targets);
        RecomputeComb(cfg, ResetEdge(cfg, seen), mems);
      } else {
        var buf := BufferScalars(c.clockedScalars, cfg.widths, RegPart(cfg.clocked), seen, mems);
        var idxs, vals := BufferMems(c.clockedMems, cfg.widths, MemPart(cfg.clocked), seen, mems);
        CommitScalars(c.clockedScalars, buf, cfg.widths, RegPart(cfg.clocked), seen, seen, mems);
        ghost var regs := LandRegs(cfg.widths, seen, seen, cfg.clocked);
        RegsPart(cfg.widths, seen, seen, cfg.clocked);
        CommitCells(c.clockedMems, idxs, vals, cfg.widths, MemPart(cfg.clocked), regs, seen, mems);
        CellsPart(cfg.widths, regs, seen, cfg.clocked);
        RecomputeComb(cfg, ClockedEdge(cfg, seen), mems);
      }
    }

    /** The defined outputs, port by port. */
    method Observe(ports: seq<Name>, ghost s: Env, ghost mems: set<Name>) returns (row: map<Name, nat>)
      requires Mirrors(env, c.syms, s, mems) && OutsMean(c.outs, c.syms.names, ports)
      ensures row == Simulator.Observe(s, ports)
    {
      row := map[];
      for k := 0 to |ports|
        invariant row == Simulator.Observe(s, ports[..k])
      {
        ObserveNext(s, ports, k);
        var v := env.scalars[c.outs[k]];
        assert v == Lookup(s, ports[k]);
        if v.V? {
          row := row[ports[k] := v.n];
        }
      }
      assert ports[..|ports|] == ports;
    }
  }

  /** A name no expression or output mentions has no slot to keep up to date. */
  lemma Unreferenced(env: SlotEnv, syms: SymTab, s: Env, mems: set<Name>, x: Name, v: Value)
    requires Mirrors(env, syms, s, mems) && x !in syms.index && x !in mems
    ensures Mirrors(env, syms, s[x := Scalar(v)], mems)
  {
    var s' := s[x := Scalar(v)];
    forall k | 0 <= k < |syms.names|
      ensures syms.names[k] != x
    {
      assert syms.names[k] in syms.index;
    }
  }

  ghost predicate OutsMean(outs: seq<nat>, names: seq<Name>, ports: seq<Name>) {
    |outs| == |ports| && forall k | 0 <= k < |ports| :: outs[k] < |names| && names[outs[k]] == ports[k]
  }

  // ---------------------------------------------------------------------------
  // Compilation
  // ---------------------------------------------------------------------------

  lemma ScalarsMeanGrow(us: seq<ScalarUpd>, names: seq<Name>, names': seq<Name>, widths: map<Name, int>, es: Updates)
    requires ScalarsMean(us, names, widths, es) && names <= names'
    ensures ScalarsMean(us, names', widths, es)
  {
    forall k | 0 <= k < |es|
      ensures ScalarMeans(us[k], names', widths, es[k].0, es[k].1)
    {
      assert ScalarMeans(us[k], names, widths, es[k].0, es[k].1);
      MeansGrows(us[k].rhs, names, names', es[k].1);
    }
  }

  lemma MemsMeanGrow(us: seq<MemUpd>, names: seq<Name>, names': seq<Name>, widths: map<Name, int>, ms: MemWrites)
    requires MemsMean(us, names, widths, ms) && names <= names'
    ensures MemsMean(us, names', widths, ms)
  {
    forall k | 0 <= k < |ms|
      ensures MemMeans(us[k], names', widths, ms[k])
    {
      assert MemMeans(us[k], names, widths, ms[k]);
      MeansGrows(us[k].idx, names, names', ms[k].1);
      MeansGrows(us[k].rhs, names, names', ms[k].2);
    }
  }

  method CompileScalar(x: Name, rhs: Text, widths: map<Name, int>, syms: SymTab) returns (r: Option<ScalarUpd>, syms': SymTab)
    requires syms.Valid()
    ensures syms'.Valid() && syms.names <= syms'.names
    ensures r.Some? <==> Parses(rhs)
    ensures r.Some? ==> ScalarMeans(r.value, syms'.names, widths, x, Parse(rhs).e)
  {
    var (s1, slot) := syms.Intern(x);
    var c;
    c, syms' := CompileExpr(rhs, s1);
    r := if c.Some? then Some(ScalarUpd(slot, WidthSlot(widths, x), c.value)) else None;
  }

  method CompileScalars(us: seq<(Name, Text)>, widths: map<Name, int>, syms: SymTab)
    returns (r: Option<seq<ScalarUpd>>, syms': SymTab)
    requires syms.Valid()
    ensures syms'.Valid() && syms.names <= syms'.names
    ensures r.Some? <==> forall k | 0 <= k < |us| :: Parses(us[k].1)
    ensures r.Some? ==> ScalarsMean(r.value, syms'.names, widths, ReadScalars(us))
  {
    var out: seq<ScalarUpd> := [];
    syms' := syms;
    for k := 0 to |us|
      invariant syms'.Valid() && syms.names <= syms'.names
      invariant forall i | 0 <= i < k :: Parses(us[i].1)
      invariant ScalarsMean(out, syms'.names, widths, ReadScalars(us[..k]))
    {
      ghost var names := syms'.names;
      var u;
      u, syms' := CompileScalar(us[k].0, us[k].1, widths, syms');
      if u.None? {
        return None, syms';
      }
      ScalarsMeanGrow(out, names, syms'.names, widths, ReadScalars(us[..k]));
      assert ReadScalars(us[..k + 1]) == ReadScalars(us[..k]) + [ReadScalar(us[k])];
      out := out + [u.value];
    }
    assert us[..|us|] == us;
    r := Some(out);
  }

  method CompileMem(b: Name, idx: Text, rhs: Text, widths: map<Name, int>, syms: SymTab)
    returns (r: Option<MemUpd>, syms': SymTab)
    requires syms.Valid()
    ensures syms'.Valid() && syms.names <= syms'.names
    ensures r.Some? <==> Parses(idx) && Parses(rhs)
    ensures r.Some? ==> MemMeans(r.value, syms'.names, widths, (b, Parse(idx).e, Parse(rhs).e))
  {
    var (s1, slot) := syms.Intern(b);
    var i, s2 := CompileExpr(idx, s1);
    var e;
    e, syms' := CompileExpr(rhs, s2);
    if i.Some? && e.Some? {
      MeansGrows(i.value, s2.names, syms'.names, Parse(idx).e);
      r := Some(MemUpd(slot, WidthSlot(widths, b), i.value, e.value));
    } else {
      r := None;
    }
  }

  lemma PartsAppend(us: seq<(Lhs, Expr)>, u: (Lhs, Expr))
    ensures RegPart(us + [u]) == RegPart(us) + (match u.0 case Reg(x) => [(x, u.1)] case Elem(_, _) => [])
    ensures MemPart(us + [u]) == MemPart(us) + (match u.0 case Reg(_) => [] case Elem(b, i) => [(b, i, u.1)])
  {
    assert (us + [u])[..|us|] == us;
  }

  /** Compile one more clocked update into the register or the memory list. */
  method CompileUpdate(regs: seq<ScalarUpd>, mems: seq<MemUpd>, u: UpdateSpec, widths: map<Name, int>, syms: SymTab,
                       ghost read: seq<(Lhs, Expr)>)
    returns (r: Option<(seq<ScalarUpd>, seq<MemUpd>)>, syms': SymTab)
    requires syms.Valid()
    requires ScalarsMean(regs, syms.names, widths, RegPart(read)) && MemsMean(mems, syms.names, widths, MemPart(read))
    ensures syms'.Valid() && syms.names <= syms'.names
    ensures r.Some? <==> Parses(u.rhs) && (u.idx.Some? ==> Parses(u.idx.value))
    ensures r.Some? ==>
      && ScalarsMean(r.value.0, syms'.names, widths, RegPart(read + [ReadUpdate(u)]))
      && MemsMean(r.value.1, syms'.names, widths, MemPart(read + [ReadUpdate(u)]))
  {
    if u.idx.None? {
      var reg;
      reg, syms' := CompileScalar(u.base, u.rhs, widths, syms);
      if reg.None? {
        return None, syms';
      }
      r := Some((regs + [reg.value], mems));
    } else {
      var mem;
      mem, syms' := CompileMem(u.base, u.idx.value, u.rhs, widths, syms);
      if mem.None? {
        return None, syms';
      }
      r := Some((regs, mems + [mem.value]));
    }
    PartsAppend(read, ReadUpdate(u));
    ScalarsMeanGrow(regs, syms.names, syms'.names, widths, RegPart(read));
    MemsMeanGrow(mems, syms.names, syms'.names, widths, MemPart(read));
  }

  lemma ReadNext(us: seq<UpdateSpec>, k: nat)
    requires k < |us| && ClockedParse(us[..k])
    ensures ClockedParse(us[..k + 1]) <==> Parses(us[k].rhs) && (us[k].idx.Some? ==> Parses(us[k].idx.value))
    ensures ClockedParse(us[..k + 1]) ==> ReadClocked(us[..k + 1]) == ReadClocked(us[..k]) + [ReadUpdate(us[k])]
  {
    assert us[..k + 1] == us[..k] + [us[k]];
    assert us[..k + 1][k] == us[k];
  }

  lemma ClockedParsePrefix(us: seq<UpdateSpec>, k: nat)
    requires k <= |us|
    ensures ClockedParse(us) ==> ClockedParse(us[..k])
  {
  }

  method CompileClocked(us: seq<UpdateSpec>, widths: map<Name, int>, syms: SymTab)
    returns (r: Option<(seq<ScalarUpd>, seq<MemUpd>)>, syms': SymTab)
    requires syms.Valid()
    ensures syms'.Valid() && syms.names <= syms'.names
    ensures r.Some? <==> ClockedParse(us)
    ensures r.Some? ==>
      && ScalarsMean(r.value.0, syms'.names, widths, RegPart(ReadClocked(us)))
      && MemsMean(r.value.1, syms'.names, widths, MemPart(ReadClocked(us)))
  {
    var regs: seq<ScalarUpd>, mems: seq<MemUpd> := [], [];
    syms' := syms;
    for k := 0 to |us|
      invariant syms'.Valid() && syms.names <= syms'.names
      invariant ClockedParse(us[..k])
      invariant ScalarsMean(regs, syms'.names, widths, RegPart(ReadClocked(us[..k])))
      invariant MemsMean(mems, syms'.names, widths, MemPart(ReadClocked(us[..k])))
    {
      ReadNext(us, k);
      var one;
      one, syms' := CompileUpdate(regs, mems, us[k], widths, syms', ReadClocked(us[..k]));
      if one.None? {
        ClockedParsePrefix(us, k + 1);
        return None, syms';
      }
      regs, mems := one.value.0, one.value.1;
    }
    assert us[..|us|] == us;
    r := Some((regs, mems));
  }

  method InternPorts(ports: seq<Name>, syms: SymTab) returns (outs: seq<nat>, syms': SymTab)
    requires syms.Valid()
    ensures syms'.Valid() && syms.names <= syms'.names && OutsMean(outs, syms'.names, ports)
  {
    outs, syms' := [], syms;
    for k := 0 to |ports|
      invariant syms'.Valid() && syms.names <= syms'.names && OutsMean(outs, syms'.names, ports[..k])
    {
      var (s1, slot) := syms'.Intern(ports[k]);
      outs, syms' := outs + [slot], s1;
    }
    assert ports[..|ports|] == ports;
  }

  /** The memories of the spec, as slots with their depths. */
  ghost predicate MemsDeclared(ms: seq<(nat, nat)>, names: seq<Name>, depths: seq<(Name, nat)>) {
    |ms| == |depths| && forall k | 0 <= k < |ms| :: ms[k].0 < |names| && names[ms[k].0] == depths[k].0 && ms[k].1 == depths[k].1
  }

  method InternMems(depths: seq<(Name, nat)>, syms: SymTab) returns (ms: seq<(nat, nat)>, syms': SymTab)
    requires syms.Valid()
    ensures syms'.Valid() && syms.names <= syms'.names && MemsDeclared(ms, syms'.names, depths)
  {
    ms, syms' := [], syms;
    for k := 0 to |depths|
      invariant syms'.Valid() && syms.names <= syms'.names && MemsDeclared(ms, syms'.names, depths[..k])
    {
      var (s1, slot) := syms'.Intern(depths[k].0);
      ms, syms' := ms + [(slot, depths[k].1)], s1;
    }
    assert depths[..|depths|] == depths;
  }

  ghost predicate SpecMeans(c: CompiledSim, sp: SimSpec, ports: seq<Name>)
    requires Readable(sp)
  {
    && c.syms.Valid()
    && ScalarsMean(c.clockedScalars, c.syms.names, sp.widths, RegPart(ReadClocked(sp.clocked)))
    && MemsMean(c.clockedMems, c.syms.names, sp.widths, MemPart(ReadClocked(sp.clocked)))
    && ScalarsMean(c.comb, c.syms.names, sp.widths, ReadScalars(sp.comb))
    && ScalarsMean(c.reset, c.syms.names, sp.widths, ReadScalars(sp.reset))
    && MemsDeclared(c.mems, c.syms.names, sp.depths)
    && OutsMean(c.outs, c.syms.names, ports)
  }

  /** `compile_sim`: fails when some expression runs out of tokens. */
  method CompileSim(sp: SimSpec, ports: seq<Name>) returns (r: Option<CompiledSim>)
    ensures r.Some? <==> Readable(sp)
    ensures r.Some? ==> SpecMeans(r.value, sp, ports)
  {
    var clocked, s1 := CompileClocked(sp.clocked, sp.widths, SymTab(map[], []));
    var comb, s2 := CompileScalars(sp.comb, sp.widths, s1);
    var reset, s3 := CompileScalars(sp.reset, sp.widths, s2);
    var ms, s4 := InternMems(sp.depths, s3);
    var outs, s5 := InternPorts(ports, s4);
    if clocked.None? || comb.None? || reset.None? {
      return None;
    }
    ScalarsMeanGrow(clocked.value.0, s1.names, s5.names, sp.widths, RegPart(ReadClocked(sp.clocked)));
    MemsMeanGrow(clocked.value.1, s1.names, s5.names, sp.widths, MemPart(ReadClocked(sp.clocked)));
    ScalarsMeanGrow(comb.value, s2.names, s5.names, sp.widths, ReadScalars(sp.comb));
    ScalarsMeanGrow(reset.value, s3.names, s5.names, sp.widths, ReadScalars(sp.reset));
    r := Some(CompiledSim(s5, clocked.value.0, clocked.value.1, comb.value, reset.value, ms, outs));
  }

  // ---------------------------------------------------------------------------
  // Runs
  // ---------------------------------------------------------------------------

  /** Before the first edge everything is X, and the memories have their depths. */
  ghost predicate Blank(s: Env, depths: seq<(Name, nat)>) {
    && HasMems(s, set k | 0 <= k < |depths| :: depths[k].0)
    && (forall x: Name :: Lookup(s, x) == X)
    && forall k | 0 <= k < |depths| :: CellsOf(s, depths[k].0) == seq(depths[k].1, _ => X)
  }

  predicate DistinctDepths(depths: seq<(Name, nat)>) {
    forall i, j | 0 <= i < j < |depths| :: depths[i].0 != depths[j].0
  }

  /** One array per memory, every cell X. */
  method InstallMems(n: nat, mems: seq<(nat, nat)>) returns (arrays: seq<Option<seq<Value>>>)
    requires forall k | 0 <= k < |mems| :: mems[k].0 < n
    requires forall i, j | 0 <= i < j < |mems| :: mems[i].0 != mems[j].0
    ensures |arrays| == n
    ensures forall j | 0 <= j < |mems| :: arrays[mems[j].0] == Some(seq(mems[j].1, _ => X))
    ensures forall i | 0 <= i < n && arrays[i].Some? :: exists j | 0 <= j < |mems| :: mems[j].0 == i
  {
    arrays := seq(n, _ => None);
    for k := 0 to |mems|
      invariant |arrays| == n
      invariant forall j | 0 <= j < k :: arrays[mems[j].0] == Some(seq(mems[j].1, _ => X))
      invariant forall i | 0 <= i < n && arrays[i].Some? :: exists j | 0 <= j < k :: mems[j].0 == i
    {
      ghost var before := arrays;
      arrays := arrays[mems[k].0 := Some(seq(mems[k].1, _ => X))];
      forall i | 0 <= i < n && arrays[i].Some?
        ensures exists j | 0 <= j < k + 1 :: mems[j].0 == i
      {
        if i != mems[k].0 {
          assert before[i].Some?;
        }
      }
    }
  }

  /** The state the runner starts from. */
  method InitialSlots(c: CompiledSim, ghost sp: SimSpec, ghost ports: seq<Name>, ghost s: Env) returns (env: SlotEnv)
    requires Readable(sp) && SpecMeans(c, sp, ports) && DistinctDepths(sp.depths) && Blank(s, sp.depths)
    ensures Mirrors(env, c.syms, s, Memories(sp))
  {
    var n := |c.syms.names|;
    MemSlotsDiffer(c, sp, ports);
    var arrays := InstallMems(n, c.mems);
    env := SlotEnv(seq(n, _ => X), arrays);
    forall i | 0 <= i < n
      ensures env.arrays[i] == if c.syms.names[i] in s && s[c.syms.names[i]].Memory? then Some(s[c.syms.names[i]].cells) else None
    {
      InitialSlot(c, sp, ports, s, env, i);
    }
  }

  lemma MemSlotsDiffer(c: CompiledSim, sp: SimSpec, ports: seq<Name>)
    requires Readable(sp) && SpecMeans(c, sp, ports) && DistinctDepths(sp.depths)
    ensures forall i, j | 0 <= i < j < |c.mems| :: c.mems[i].0 != c.mems[j].0
  {
  }

  /** A memory of the state has its slot among the declared ones. */
  lemma MemoryHasSlot(c: CompiledSim, sp: SimSpec, ports: seq<Name>, s: Env, i: nat)
    requires Readable(sp) && SpecMeans(c, sp, ports) && Blank(s, sp.depths) && i < |c.syms.names|
    ensures c.syms.names[i] in s && s[c.syms.names[i]].Memory? ==> exists j | 0 <= j < |c.mems| :: c.mems[j].0 == i
  {
    var x := c.syms.names[i];
    if x in s && s[x].Memory? {
      var k :| 0 <= k < |sp.depths| && sp.depths[k].0 == x;
      assert c.syms.names[c.mems[k].0] == x;
      assert c.syms.index[x] == c.mems[k].0 && c.syms.index[x] == i;
    }
  }

  lemma InitialSlot(c: CompiledSim, sp: SimSpec, ports: seq<Name>, s: Env, env: SlotEnv, i: nat)
    requires Readable(sp) && SpecMeans(c, sp, ports) && Blank(s, sp.depths) && i < |c.syms.names| == |env.arrays|
    requires env.arrays[i].Some? ==> exists j | 0 <= j < |c.mems| :: c.mems[j].0 == i
    requires forall j | 0 <= j < |c.mems| :: c.mems[j].0 < |env.arrays| && env.arrays[c.mems[j].0] == Some(seq(c.mems[j].1, _ => X))
    ensures var x := c.syms.names[i]; env.arrays[i] == if x in s && s[x].Memory? then Some(s[x].cells) else None
  {
    var x := c.syms.names[i];
    MemoryHasSlot(c, sp, ports, s, i);
    if exists j | 0 <= j < |c.mems| :: c.mems[j].0 == i {
      var j :| 0 <= j < |c.mems| && c.mems[j].0 == i;
      assert sp.depths[j].0 == x;
      assert CellsOf(s, sp.depths[j].0) == seq(sp.depths[j].1, _ => X);
    }
  }

  /** The dictionary of a list of entries. */
  function PairMap(pairs: seq<(Name, Value)>): Vector {
    if pairs == [] then map[] else PairMap(pairs[..|pairs| - 1])[pairs[|pairs| - 1].0 := pairs[|pairs| - 1].1]
  }

  lemma {:induction false} DriveIsUpdate(s: Env, pairs: seq<(Name, Value)>)
    ensures DriveAll(s, pairs) == s + map x | x in PairMap(pairs) :: Scalar(PairMap(pairs)[x])
    decreases |pairs|
  {
    if pairs != [] {
      DriveIsUpdate(s, pairs[..|pairs| - 1]);
    }
  }

  /** Driving the listed inputs one by one is updating the state with the vector. */
  lemma ListedDrive(cfg: Config, s: Env, pairs: seq<(Name, Value)>, inputs: Vector)
    requires PairMap(pairs) == Driven(cfg, inputs)
    ensures DriveAll(s, pairs) == SetInputs(cfg, s, inputs)
  {
    DriveIsUpdate(s, pairs);
  }

  /** The edges the harness hands over for a stimulus: the reset pulse, then one observed edge per vector. */
  ghost predicate HarnessEdges(cfg: Config, stimulus: seq<Vector>, edges: seq<EdgeIn>) {
    && |edges| == |stimulus| + 2
    && (forall i | 0 <= i < 2 ::
          PairMap(edges[i].inputs) == Driven(cfg, Zeros(cfg, stimulus)) && edges[i].isReset == (i == 0) && !edges[i].observe)
    && (forall i | 0 <= i < |stimulus| ::
          && PairMap(edges[i + 2].inputs) == Driven(cfg, stimulus[i])
          && edges[i + 2].isReset == ResetAsserted(cfg, stimulus[i]) && edges[i + 2].observe)
  }

  ghost predicate EdgesApart(edges: seq<EdgeIn>, mems: set<Name>) {
    forall i | 0 <= i < |edges| :: InputsApart(edges[i].inputs, mems)
  }

  /** The rows of a run: its observed outputs, vector by vector. */
  ghost predicate RowsShow(tr: Trace, ports: seq<Name>, rows: seq<map<Name, nat>>)
  {
    tr.Shaped() && |rows| == tr.Length() && forall i | 0 <= i < |rows| :: rows[i] == Simulator.Observe(tr.states[i + 1], ports)
  }

  lemma MeansDigest(c: CompiledSim, sp: SimSpec, ports: seq<Name>, cfg: Config)
    requires Readable(sp) && SpecMeans(c, sp, ports) && Digests(cfg, sp)
    ensures SimMeans(c, cfg)
  {
  }

  /** `run_spec_sim`: the rows of the native engine are the rows of the reference run. */
  method RunSpecSim(sp: SimSpec, edges: seq<EdgeIn>, ports: seq<Name>,
                    ghost cfg: Config, ghost s0: Env, ghost stimulus: seq<Vector>)
    returns (rows: Option<seq<map<Name, nat>>>, ghost tr: Trace)
    requires Readable(sp) ==> Digests(cfg, sp) && ByIndexOnly(cfg, Memories(sp))
    requires DistinctDepths(sp.depths) && Blank(s0, sp.depths)
    requires HarnessEdges(cfg, stimulus, edges) && EdgesApart(edges, Memories(sp))
    ensures rows.Some? <==> Readable(sp)
    ensures rows.Some? ==> IsRun(cfg, s0, stimulus, tr) && RowsShow(tr, ports, rows.value)
  {
    tr := Trace([], [], []);
    var c := CompileSim(sp, ports);
    if c.None? {
      return None, tr;
    }
    MeansDigest(c.value, sp, ports, cfg);
    var env := InitialSlots(c.value, sp, ports, s0);
    var runner := new Runner(c.value, env);
    var out;
    out, tr := RunEdges(runner, edges, ports, cfg, s0, stimulus, Memories(sp));
    rows := Some(out);
  }

  /** The part of a run that `n` edges have made. */
  ghost predicate RunSoFar(cfg: Config, s0: Env, stimulus: seq<Vector>, tr: Trace, n: nat, s: Env)
    requires n <= |stimulus| + 2
  {
    if n == 0 then s == s0
    else if n == 1 then s == Simulator.Edge(cfg, s0, Zeros(cfg, stimulus), true)
    else
      && tr.Shaped() && tr.Length() == n - 2 && s == tr.states[n - 2]
      && StartsWith(cfg, s0, Zeros(cfg, stimulus), tr.states[0])
      && forall i | 0 <= i < n - 2 :: StepsTo(cfg, tr, stimulus[i], i)
  }

  lemma PulseGrows(cfg: Config, s0: Env, stimulus: seq<Vector>, n: nat, s: Env, s': Env, reset: bool)
    requires n < 2 && (if n == 0 then s == s0 else s == Simulator.Edge(cfg, s0, Zeros(cfg, stimulus), true))
    requires reset == (n == 0) && s' == Simulator.Edge(cfg, s, Zeros(cfg, stimulus), reset)
    ensures RunSoFar(cfg, s0, stimulus, Trace([s'], [], []), n + 1, s')
  {
  }

  lemma StepGrows(cfg: Config, tr: Trace, tr': Trace, stimulus: seq<Vector>, i: nat, s': Env, reset: bool)
    requires tr.Shaped() && tr.Length() == i < |stimulus| && reset == ResetAsserted(cfg, stimulus[i])
    requires s' == Simulator.Edge(cfg, tr.states[i], stimulus[i], reset)
    requires tr' == Trace(tr.states + [s'], tr.seen + [Seen(cfg, tr.states[i], stimulus[i])], tr.resets + [reset])
    requires forall j | 0 <= j < i :: StepsTo(cfg, tr, stimulus[j], j)
    ensures tr'.Shaped() && forall j | 0 <= j < i + 1 :: StepsTo(cfg, tr', stimulus[j], j)
  {
    StepsKept(cfg, tr, tr', stimulus, i);
  }

  /** One more edge of the harness is one more step of the run. */
  lemma RunGrows(cfg: Config, s0: Env, stimulus: seq<Vector>, edges: seq<EdgeIn>, tr: Trace, n: nat, s: Env) returns (tr': Trace)
    requires HarnessEdges(cfg, stimulus, edges) && n < |edges| && RunSoFar(cfg, s0, stimulus, tr, n, s)
    ensures RunSoFar(cfg, s0, stimulus, tr', n + 1, Simulator.Edge(cfg, s, VectorOf(cfg, stimulus, n), edges[n].isReset))
    ensures n >= 2 ==> tr.states <= tr'.states
  {
    var s' := Simulator.Edge(cfg, s, VectorOf(cfg, stimulus, n), edges[n].isReset);
    if n < 2 {
      tr' := Trace([s'], [], []);
      PulseGrows(cfg, s0, stimulus, n, s, s', edges[n].isReset);
    } else {
      assert edges[n] == edges[(n - 2) + 2];
      tr' := Trace(tr.states + [s'], tr.seen + [Seen(cfg, s, stimulus[n - 2])], tr.resets + [edges[n].isReset]);
      StepGrows(cfg, tr, tr', stimulus, n - 2, s', edges[n].isReset);
    }
  }

  ghost function VectorOf(cfg: Config, stimulus: seq<Vector>, n: nat): Vector
    requires n < |stimulus| + 2
  {
    if n < 2 then Zeros(cfg, stimulus) else stimulus[n - 2]
  }

  lemma EdgeInputs(cfg: Config, stimulus: seq<Vector>, edges: seq<EdgeIn>, n: nat)
    requires HarnessEdges(cfg, stimulus, edges) && n < |edges|
    ensures PairMap(edges[n].inputs) == Driven(cfg, VectorOf(cfg, stimulus, n))
    ensures edges[n].observe == (n >= 2)
  {
    if n >= 2 {
      assert edges[n] == edges[(n - 2) + 2];
    }
  }

  method RunEdges(runner: Runner, edges: seq<EdgeIn>, ports: seq<Name>,
                  ghost cfg: Config, ghost s0: Env, ghost stimulus: seq<Vector>, ghost mems: set<Name>)
    returns (rows: seq<map<Name, nat>>, ghost tr: Trace)
    requires SimMeans(runner.c, cfg) && ByIndexOnly(cfg, mems) && Mirrors(runner.env, runner.c.syms, s0, mems)
    requires OutsMean(runner.c.outs, runner.c.syms.names, ports)
    requires HarnessEdges(cfg, stimulus, edges) && EdgesApart(edges, mems)
    modifies runner
    ensures IsRun(cfg, s0, stimulus, tr) && RowsShow(tr, ports, rows)
  {
    rows := [];
    tr := Trace([], [], []);
    ghost var s := s0;
    for i := 0 to |edges|
      invariant Mirrors(runner.env, runner.c.syms, s, mems)
      invariant RunSoFar(cfg, s0, stimulus, tr, i, s)
      invariant |rows| == if i < 2 then 0 else i - 2
      invariant i >= 2 ==> RowsShow(tr, ports, rows)
    {
      EdgeInputs(cfg, stimulus, edges, i);
      ghost var was := tr;
      tr := RunGrows(cfg, s0, stimulus, edges, tr, i, s);
      s := RunEdge(runner, edges[i], VectorOf(cfg, stimulus, i), cfg, s, mems);
      if edges[i].observe {
        var row := runner.Observe(ports, s, mems);
        RowsGrow(was, tr, ports, rows, row);
        rows := rows + [row];
      }
    }
  }

  method RunEdge(runner: Runner, edge: EdgeIn, ghost vec: Vector, ghost cfg: Config, ghost s: Env, ghost mems: set<Name>)
    returns (ghost s': Env)
    requires SimMeans(runner.c, cfg) && ByIndexOnly(cfg, mems) && Mirrors(runner.env, runner.c.syms, s, mems)
    requires InputsApart(edge.inputs, mems) && PairMap(edge.inputs) == Driven(cfg, vec)
    modifies runner
    ensures s' == Simulator.Edge(cfg, s, vec, edge.isReset) && Mirrors(runner.env, runner.c.syms, s', mems)
  {
    ListedDrive(cfg, s, edge.inputs, vec);
    runner.Edge(edge.inputs, edge.isReset, cfg, s, mems, vec);
    s' := Simulator.Edge(cfg, s, vec, edge.isReset);
  }

  lemma RowsGrow(tr: Trace, tr': Trace, ports: seq<Name>, rows: seq<map<Name, nat>>, row: map<Name, nat>)
    requires RowsShow(tr, ports, rows) && tr'.Shaped() && tr.states <= tr'.states && tr'.Length() == tr.Length() + 1
    requires row == Simulator.Observe(tr'.states[tr'.Length()], ports)
    ensures RowsShow(tr', ports, rows + [row])
  {
  }

  /** A stimulus has one run. */
  lemma {:induction false} RunIsUnique(cfg: Config, s0: Env, stimulus: seq<Vector>, a: Trace, b: Trace, i: nat)
    requires IsRun(cfg, s0, stimulus, a) && IsRun(cfg, s0, stimulus, b) && i <= |stimulus|
    ensures a.states[i] == b.states[i]
  {
    if i > 0 {
      RunIsUnique(cfg, s0, stimulus, a, b, i - 1);
      assert StepsTo(cfg, a, stimulus[i - 1], i - 1) && StepsTo(cfg, b, stimulus[i - 1], i - 1);
    }
  }

  lemma SameRows(cfg: Config, s0: Env, stimulus: seq<Vector>, ports: seq<Name>, a: Trace, b: Trace,
                 x: seq<map<Name, nat>>, y: seq<map<Name, nat>>)
    requires IsRun(cfg, s0, stimulus, a) && IsRun(cfg, s0, stimulus, b)
    requires RowsShow(a, ports, x) && RowsShow(b, ports, y)
    ensures x == y
  {
    forall i | 0 <= i < |x|
      ensures x[i] == y[i]
    {
      RunIsUnique(cfg, s0, stimulus, a, b, i + 1);
    }
  }

  /** Which engine ran never shows: both return the same rows. */
  method BackendsAgree(sim: SpecSimulator, sp: SimSpec, edges: seq<EdgeIn>, stimulus: seq<Vector>, ports: seq<Name>)
    returns (reference: seq<map<Name, nat>>, native: Option<seq<map<Name, nat>>>)
    requires Readable(sp) ==> Digests(sim.cfg, sp) && ByIndexOnly(sim.cfg, Memories(sp))
    requires DistinctDepths(sp.depths) && Blank(sim.state, sp.depths)
    requires HarnessEdges(sim.cfg, stimulus, edges) && EdgesApart(edges, Memories(sp))
    modifies sim
    ensures native == if Readable(sp) then Some(reference) else None
  {
    ghost var s0 := sim.state;
    ghost var a, b;
    native, a := RunSpecSim(sp, edges, ports, sim.cfg, s0, stimulus);
    reference, b := sim.Run(stimulus, ports);
    if native.Some? {
      SameRows(sim.cfg, s0, stimulus, ports, a, b, native.value, reference);
    }
  }
}
