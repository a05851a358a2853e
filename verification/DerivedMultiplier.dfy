/**
  The multiplier taken through the whole chain: from the abstract statement `product = a * b` and
  the texts of the proposed loop to the circuit the simulator runs. Proved: for every operand
  width from 1 to 32, in every run of that circuit, done announces the product modulo 2^32 of the
  operands sampled as many cycles earlier as they have bits; up to width 16 that is the product.
  */
module DerivedMultiplier {
  import opened Expressions
  import opened Grammar
  import opened Splicing
  import opened Domain
  import opened Kernel
  import NativeKernel
  import opened Simulator
  import opened Handshake
  import opened Scheduling
  import opened Runs
  import opened Multiplier
  import opened Served
  import opened Refinement

  // ---------------------------------------------------------------------------
  // The texts of the proposal
  // ---------------------------------------------------------------------------

  function NameToken(x: Name): Text {
    [TId(x)]
  }

  /** `(mplier % 2) = 1` */
  function LowBitText(): Text {
    ParenText(NameToken(MPLIER) + [TPercent] + [TNum(2)]) + [TEq] + [TNum(1)]
  }

  function AddText(): Text {
    NameToken(PRODUCT) + [TPlus] + NameToken(MCAND)
  }

  function ProductText(): Text {
    IfText(LowBitText(), AddText(), NameToken(PRODUCT))
  }

  function TimesText(): Text {
    NameToken(A) + [TStar] + NameToken(B)
  }

  function MulRequest(n: nat): Request {
    NativeKernel.LoopParams(
      NameToken(PRODUCT) + [TEq] + TimesText(),
      (NameToken(PRODUCT) + [TPlus] + (NameToken(MPLIER) + [TStar] + NameToken(MCAND))) + [TEq] + TimesText(),
      NameToken(COUNT),
      NameToken(COUNT) + [TGt] + [TNum(0)],
      [(PRODUCT, [TNum(0)]), (MCAND, NameToken(A)), (MPLIER, NameToken(B)), (COUNT, [TNum(n)])],
      [(PRODUCT, ProductText()), (MCAND, NameToken(MCAND) + [TStar] + [TNum(2)]),
       (MPLIER, NameToken(MPLIER) + [TSlash] + [TNum(2)]), (COUNT, NameToken(COUNT) + [TMinus] + [TNum(1)])],
      [(PRODUCT, NameToken(PRODUCT))],
      [(A, n), (B, n)])
  }

  lemma OperatorText(lvl: nat, x: Name, t: Token, k: nat)
    requires lvl < UNARY && OpAt(lvl, t).Some?
    ensures DenotesAt(lvl, NameToken(x) + [t] + [TNum(k)], Bin(OpAt(lvl, t).value, Var(x), Const(k)))
    ensures Denotes(NameToken(x) + [t] + [TNum(k)], Bin(OpAt(lvl, t).value, Var(x), Const(k)))
  {
    NameDenotes(x, lvl + 1);
    NumberDenotes(k, lvl + 1);
    BinDenotes(lvl, NameToken(x), t, [TNum(k)], Var(x), Const(k));
    OperandDenotes(NameToken(x) + [t] + [TNum(k)], Bin(OpAt(lvl, t).value, Var(x), Const(k)), lvl);
  }

  lemma NamesText(lvl: nat, x: Name, t: Token, y: Name)
    requires lvl < UNARY && OpAt(lvl, t).Some?
    ensures DenotesAt(lvl, NameToken(x) + [t] + NameToken(y), Bin(OpAt(lvl, t).value, Var(x), Var(y)))
    ensures Denotes(NameToken(x) + [t] + NameToken(y), Bin(OpAt(lvl, t).value, Var(x), Var(y)))
  {
    NameDenotes(x, lvl + 1);
    NameDenotes(y, lvl + 1);
    BinDenotes(lvl, NameToken(x), t, NameToken(y), Var(x), Var(y));
    OperandDenotes(NameToken(x) + [t] + NameToken(y), Bin(OpAt(lvl, t).value, Var(x), Var(y)), lvl);
  }

  lemma LowBitDenotes()
    ensures Denotes(LowBitText(), LowBit())
  {
    var inner := NameToken(MPLIER) + [TPercent] + [TNum(2)];
    var e := Bin(Mod, Var(MPLIER), Const(2));
    OperatorText(MUL, MPLIER, TPercent, 2);
    ParenDenotes(inner, e, CMP + 1);
    NumberDenotes(1, CMP + 1);
    BinDenotes(CMP, ParenText(inner), TEq, [TNum(1)], e, Const(1));
    OperandDenotes(LowBitText(), LowBit(), CMP);
  }

  lemma PieceSealed(s: Text, e: Expr)
    requires Denotes(s, e) && forall k | 0 <= k < |s| :: !s[k].TIf?
    ensures Sealed(s) && Cut(s).None?
  {
    PlainIsSealed(s, e);
  }

  lemma LowBitTokens()
    ensures forall k | 0 <= k < |LowBitText()| :: !LowBitText()[k].TIf?
  {
    assert LowBitText() == [TLPar, TId(MPLIER), TPercent, TNum(2), TRPar, TEq, TNum(1)];
  }

  lemma LowBitPiece()
    ensures Denotes(LowBitText(), LowBit()) && Sealed(LowBitText())
  {
    LowBitDenotes();
    LowBitTokens();
    PieceSealed(LowBitText(), LowBit());
  }

  lemma AddPiece()
    ensures Denotes(AddText(), Bin(Add, Var(PRODUCT), Var(MCAND))) && Sealed(AddText())
  {
    NamesText(ADD, PRODUCT, TPlus, MCAND);
    PieceSealed(AddText(), Bin(Add, Var(PRODUCT), Var(MCAND)));
  }

  lemma HoldPiece()
    ensures Denotes(NameToken(PRODUCT), Var(PRODUCT)) && Cut(NameToken(PRODUCT)).None?
  {
    NameText(PRODUCT);
    PieceSealed(NameToken(PRODUCT), Var(PRODUCT));
  }

  lemma ProductPieces()
    ensures Denotes(LowBitText(), LowBit()) && Sealed(LowBitText())
    ensures Denotes(AddText(), Bin(Add, Var(PRODUCT), Var(MCAND))) && Sealed(AddText())
    ensures Denotes(NameToken(PRODUCT), Var(PRODUCT)) && Cut(NameToken(PRODUCT)).None?
  {
    LowBitPiece();
    AddPiece();
    HoldPiece();
  }

  lemma OneClause(g: Text, v: Text, d: Text)
    requires Sealed(g) && Sealed(v) && Cut(d).None?
    ensures SplitChain(IfText(g, v, d)) == ([(g, v)], d)
  {
    IfSplits(g, v, d);
    assert [(g, v)] + [] == [(g, v)];
  }

  /** The product's body comes apart into its one guarded sum and its default. */
  lemma ProductSplits()
    ensures SplitChain(ProductText()) == ([(LowBitText(), AddText())], NameToken(PRODUCT))
  {
    ProductPieces();
    OneClause(LowBitText(), AddText(), NameToken(PRODUCT));
  }

  lemma LeafSplits(s: Text, e: Expr)
    requires Denotes(s, e) && forall k | 0 <= k < |s| :: !s[k].TIf?
    ensures SplitChain(s) == ([], s) && BodyText(s)
  {
    PieceSealed(s, e);
  }

  lemma ProductBody(n: nat)
    ensures BodyText(ProductText()) && Denotes(ProductText(), BodyOf(Regs(n)[0]))
  {
    ProductPieces();
    ProductSplits();
    IfDenotes(LowBitText(), AddText(), NameToken(PRODUCT), LowBit(), Bin(Add, Var(PRODUCT), Var(MCAND)), Var(PRODUCT));
    MulBody(n);
    assert BodyUpdates(MulMachine(n))[0] == (PRODUCT, BodyOf(Regs(n)[0]));
  }

  lemma LeafBody(lvl: nat, x: Name, t: Token, k: nat)
    requires lvl < UNARY && OpAt(lvl, t).Some? && !t.TIf?
    ensures var s := NameToken(x) + [t] + [TNum(k)];
      && BodyText(s) && SplitChain(s) == ([], s)
      && Denotes(s, Bin(OpAt(lvl, t).value, Var(x), Const(k)))
  {
    OperatorText(lvl, x, t, k);
    LeafSplits(NameToken(x) + [t] + [TNum(k)], Bin(OpAt(lvl, t).value, Var(x), Const(k)));
  }

  /** What each text of the proposal denotes. */
  lemma BodyTexts(n: nat, k: nat)
    requires k < 4
    ensures BodyText(MulRequest(n).body[k].1)
    ensures Denotes(MulRequest(n).body[k].1, BodyOf(Regs(n)[k]))
  {
    if k == 0 {
      ProductBody(n);
    } else if k == 1 {
      LeafBody(MUL, MCAND, TStar, 2);
    } else if k == 2 {
      LeafBody(MUL, MPLIER, TSlash, 2);
    } else {
      LeafBody(ADD, COUNT, TMinus, 1);
    }
  }

  lemma InitTexts(n: nat, k: nat)
    requires k < 4
    ensures Denotes(MulRequest(n).init[k].1, Regs(n)[k].init)
    ensures MulRequest(n).init[k].0 == MulRequest(n).body[k].0 == Regs(n)[k].name
  {
    NumberText(0);
    NumberText(n);
    NameText(A);
    NameText(B);
  }

  lemma GuardText(n: nat)
    ensures Denotes(MulRequest(n).guard, Guard())
  {
    OperatorText(CMP, COUNT, TGt, 0);
  }

  lemma MulKeys(n: nat)
    ensures KeysOf(MulRequest(n).init) == KeysOf(MulRequest(n).body) == {PRODUCT, MCAND, MPLIER, COUNT}
    ensures DistinctKeys(MulRequest(n).init) && DistinctKeys(MulRequest(n).body)
  {
    NamesDiffer();
    var p := MulRequest(n);
    assert p.init[0].0 == PRODUCT && p.init[1].0 == MCAND && p.init[2].0 == MPLIER && p.init[3].0 == COUNT;
    assert p.body[0].0 == PRODUCT && p.body[1].0 == MCAND && p.body[2].0 == MPLIER && p.body[3].0 == COUNT;
  }

  lemma MulWellTexted(n: nat)
    ensures WellTexted(MulRequest(n))
  {
    var p := MulRequest(n);
    MulKeys(n);
    GuardText(n);
    forall k | 0 <= k < |p.body|
      ensures BodyText(p.body[k].1)
    {
      BodyTexts(n, k);
    }
    forall k | 0 <= k < |p.init|
      ensures Strict(p.init[k].1)
    {
      InitTexts(n, k);
    }
  }

  const CTL: Control := Control("state", "done", "start")

  /** Read as registers, the texts are the registers of the loop. */
  lemma MulRegisterOf(n: nat, k: nat)
    requires k < 4
    ensures WellTexted(MulRequest(n)) && RegisterOf(MulRequest(n), k) == Regs(n)[k]
  {
    var p := MulRequest(n);
    MulWellTexted(n);
    MulKeys(n);
    LoadsKnown(p);
    InitTexts(n, k);
    FindDistinct(p.init, k);
    RegisterPairs(n, k);
  }

  lemma RegisterPairs(n: nat, k: nat)
    requires k < 4
    ensures BodyText(MulRequest(n).body[k].1)
    ensures PairExprs(SplitChain(MulRequest(n).body[k].1).0) == Regs(n)[k].pairs
    ensures ParseExpr(true, SplitChain(MulRequest(n).body[k].1).1, 0).e == Regs(n)[k].dflt
  {
    BodyTexts(n, k);
    if k == 0 {
      ProductPieces();
      ProductSplits();
    } else if k == 1 {
      LeafBody(MUL, MCAND, TStar, 2);
    } else if k == 2 {
      LeafBody(MUL, MPLIER, TSlash, 2);
    } else {
      LeafBody(ADD, COUNT, TMinus, 1);
    }
  }

  lemma MulMachineOf(n: nat)
    ensures WellTexted(MulRequest(n)) && MachineOf(CTL, MulRequest(n)) == MulMachine(n)
  {
    MulWellTexted(n);
    GuardText(n);
    var regs := RegistersIn(MulRequest(n));
    forall k | 0 <= k < 4
      ensures regs[k] == Regs(n)[k]
    {
      MulRegisterOf(n, k);
    }
    assert regs == Regs(n);
  }

  // ---------------------------------------------------------------------------
  // The kernel reads the derivation of the loop
  // ---------------------------------------------------------------------------

  lemma MulClaims(n: nat)
    ensures Denotes(MulRequest(n).post, MulDerivation(n).post)
    ensures Denotes(MulRequest(n).inv, MulDerivation(n).inv)
    ensures Denotes(MulRequest(n).variant, MulDerivation(n).variant)
    ensures Denotes(MulRequest(n).mapping[0].1, Var(PRODUCT))
  {
    NameText(PRODUCT);
    NameText(COUNT);
    PostText();
    InvText();
  }

  lemma PostText()
    ensures Denotes(NameToken(PRODUCT) + [TEq] + TimesText(), Bin(Eq, Var(PRODUCT), Times()))
  {
    NamesText(MUL, A, TStar, B);
    LevelDenotes(TimesText(), Times(), CMP + 1, MUL);
    NameDenotes(PRODUCT, CMP + 1);
    BinDenotes(CMP, NameToken(PRODUCT), TEq, TimesText(), Var(PRODUCT), Times());
    OperandDenotes(NameToken(PRODUCT) + [TEq] + TimesText(), Bin(Eq, Var(PRODUCT), Times()), CMP);
  }

  lemma InvText()
    ensures Denotes(
      (NameToken(PRODUCT) + [TPlus] + (NameToken(MPLIER) + [TStar] + NameToken(MCAND))) + [TEq] + TimesText(),
      Bin(Eq, Bin(Add, Var(PRODUCT), Bin(Mul, Var(MPLIER), Var(MCAND))), Times()))
  {
    var prod, e := NameToken(MPLIER) + [TStar] + NameToken(MCAND), Bin(Mul, Var(MPLIER), Var(MCAND));
    NamesText(MUL, MPLIER, TStar, MCAND);
    NameDenotes(PRODUCT, ADD + 1);
    BinDenotes(ADD, NameToken(PRODUCT), TPlus, prod, Var(PRODUCT), e);
    NamesText(MUL, A, TStar, B);
    LevelDenotes(TimesText(), Times(), CMP + 1, MUL);
    var sum := NameToken(PRODUCT) + [TPlus] + prod;
    BinDenotes(CMP, sum, TEq, TimesText(), Bin(Add, Var(PRODUCT), e), Times());
    OperandDenotes(sum + [TEq] + TimesText(), Bin(Eq, Bin(Add, Var(PRODUCT), e), Times()), CMP);
  }

  /** The request is the derivation the obligations were proved for. */
  lemma MulReadsBack(n: nat)
    ensures NativeKernel.Readable(MulRequest(n)) && NativeKernel.Read(MulRequest(n)) == MulDerivation(n)
  {
    var p, d := MulRequest(n), MulDerivation(n);
    MulClaims(n);
    GuardText(n);
    DenotedParse(p.post, d.post);
    DenotedParse(p.inv, d.inv);
    DenotedParse(p.variant, d.variant);
    DenotedParse(p.guard, d.guard);
    MulEntries(n);
  }

  lemma MulEntries(n: nat)
    ensures var p, d := MulRequest(n), MulDerivation(n);
      && NativeKernel.AllParse(p.init) && NativeKernel.Reading(p.init) == d.init
      && NativeKernel.AllParse(p.body) && NativeKernel.Reading(p.body) == d.body
      && NativeKernel.AllParse(p.mapping) && NativeKernel.Reading(p.mapping) == d.mapping
  {
    var p, d := MulRequest(n), MulDerivation(n);
    forall k | 0 <= k < 4
      ensures Parse(p.init[k].1).Good? && (p.init[k].0, Parse(p.init[k].1).e) == d.init[k]
      ensures Parse(p.body[k].1).Good? && (p.body[k].0, Parse(p.body[k].1).e) == d.body[k]
    {
      InitTexts(n, k);
      DenotedParse(p.init[k].1, Regs(n)[k].init);
      BodyTexts(n, k);
      DenotedParse(p.body[k].1, BodyOf(Regs(n)[k]));
    }
    NameText(PRODUCT);
    DenotedParse(p.mapping[0].1, Var(PRODUCT));
  }

  // ---------------------------------------------------------------------------
  // The derivation
  // ---------------------------------------------------------------------------

  /** One abstract output and one statement: `product = a * b`. */
  function AbstractSpec(n: nat): Spec {
    Spec([Variable(PRODUCT, 2 * n, true, false, false, None)],
         [SpecAction("Compute", TRUE_TEXT, [(PRODUCT, TimesText())], false, false, true, None)],
         None)
  }

  function MulPlan(n: nat): Plan {
    Plan(CTL,
         [FreshVar(MCAND, 2 * n, None), FreshVar(MPLIER, n, None), FreshVar(COUNT, n, None)],
         "Reset",
         [(PRODUCT, [TNum(0)]), (MCAND, [TNum(0)]), (MPLIER, [TNum(0)]), (COUNT, [TNum(0)]), ("state", [TNum(0)])])
  }

  function Registers(n: nat): seq<Variable> {
    [ Variable(PRODUCT, 2 * n, false, false, true, None), Variable(MCAND, 2 * n, false, false, true, None),
      Variable(MPLIER, n, false, false, true, None), Variable(COUNT, n, false, false, true, None) ]
  }

  /** The registers after the loop is introduced. */
  lemma MulBaseVars(n: nat)
    ensures BaseVars(AbstractSpec(n), MulRequest(n), MulPlan(n)) == Registers(n)
  {
    NamesDiffer();
    MulKeys(n);
    FreshAdded(n);
    var vs := AddFresh(AbstractSpec(n).variables, MulPlan(n).freshVars);
    assert vs[0].name == PRODUCT && vs[1].name == MCAND && vs[2].name == MPLIER && vs[3].name == COUNT;
  }

  lemma FreshAdded(n: nat)
    ensures AddFresh(AbstractSpec(n).variables, MulPlan(n).freshVars)
      == [ Variable(PRODUCT, 2 * n, true, false, false, None), Variable(MCAND, 2 * n, false, false, true, None),
           Variable(MPLIER, n, false, false, true, None), Variable(COUNT, n, false, false, true, None) ]
  {
    NamesDiffer();
    var v0, fs := AbstractSpec(n).variables, MulPlan(n).freshVars;
    var v1 := v0 + [Variable(MCAND, 2 * n, false, false, true, None)];
    var v2 := v1 + [Variable(MPLIER, n, false, false, true, None)];
    assert fs[..2][..1] == fs[..1] && fs[..1][..0] == [];
    assert v0[0].name == PRODUCT && v1[1].name == MCAND && v2[2].name == MPLIER;
    assert !HasName(v0, MCAND);
    assert AddFresh(v0, fs[..1]) == v1;
    assert !HasName(v1, MPLIER);
    assert AddFresh(v0, fs[..2]) == v2;
    assert !HasName(v2, COUNT);
  }

  lemma MulRegistersDeclared(n: nat, x: Name)
    requires x in {PRODUCT, MCAND, MPLIER, COUNT}
    ensures HasName(Registers(n), x) && !NeverReset(Registers(n), x)
  {
    var vs := Registers(n);
    assert vs[0].name == PRODUCT && vs[1].name == MCAND && vs[2].name == MPLIER && vs[3].name == COUNT;
  }

  lemma MulControlNew(n: nat)
    ensures !HasName(Registers(n), "state") && !HasName(Registers(n), "done")
  {
    NamesDiffer();
    ControlNamesDiffer();
  }

  lemma MulResetKeys(n: nat)
    ensures KeysOf(MulPlan(n).resets) == {PRODUCT, MCAND, MPLIER, COUNT, "state"}
    ensures DistinctKeys(MulPlan(n).resets) && PlainResets(MulPlan(n).resets)
    ensures ("state", [TNum(0)]) in MulPlan(n).resets
  {
    NamesDiffer();
    ControlNamesDiffer();
    var rs := MulPlan(n).resets;
    assert rs[0].0 == PRODUCT && rs[1].0 == MCAND && rs[2].0 == MPLIER && rs[3].0 == COUNT;
    assert rs[4] == ("state", [TNum(0)]);
  }

  lemma MulPortsApart(n: nat)
    ensures KeysOfInputs(MulRequest(n)) == {A, B}
    ensures {"rst", CLK} !! {"state", "done", "start", PRODUCT, MCAND, MPLIER, COUNT, A, B}
    ensures {PRODUCT, MCAND, MPLIER, COUNT, "state"} !! {"start", A, B}
  {
    NamesDiffer();
    ControlNamesDiffer();
    var p := MulRequest(n);
    assert p.inputs[0].0 == A && p.inputs[1].0 == B;
  }

  lemma MulActionNames(n: nat)
    ensures OneStatement(AbstractSpec(n), MulPlan(n))
  {
    assert |"Reset"| == 5 && |"Compute"| == 7 && |"DoneFlag"| == 8;
  }

  lemma MulPlanFits(n: nat)
    ensures PlanFits(AbstractSpec(n), MulRequest(n), MulPlan(n), "rst")
  {
    MulBaseVars(n);
    MulKeys(n);
    MulActionNames(n);
    MulControlNew(n);
    MulResetKeys(n);
    MulPortsApart(n);
    assert "state" != "done" by { ControlNamesDiffer(); }
    forall x | x in KeysOf(MulRequest(n).body)
      ensures HasName(Registers(n), x) && !NeverReset(Registers(n), x)
    {
      MulRegistersDeclared(n, x);
    }
  }

  /** The spec the three rules make of the abstract one. */
  function MulSpec(n: nat): (r: Spec)
    ensures SpecParses(r)
  {
    MulWellTexted(n);
    MulActionNames(n);
    MulGuardFlat(n);
    MulResetKeys(n);
    DerivedParses(AbstractSpec(n), MulRequest(n), MulPlan(n));
    Derived(AbstractSpec(n), MulRequest(n), MulPlan(n))
  }

  lemma MulGuardFlat(n: nat)
    ensures Strict(MulRequest(n).guard) && Bases(ParseExpr(true, MulRequest(n).guard, 0).e) == {}
  {
    GuardText(n);
  }

  /** The circuit the simulator digests from that spec. */
  function MulCircuit(n: nat): Config {
    Digest(MulSpec(n), "rst", false)
  }

  lemma MulDerives(n: nat)
    ensures Circuit(MulMachine(n), MulDerivation(n), MulCircuit(n))
  {
    MulReadsBack(n);
    MulMachineOf(n);
    MulPlanFits(n);
    MulGuardFlat(n);
    DerivedCircuit(AbstractSpec(n), MulRequest(n), MulPlan(n), "rst", false);
  }

  lemma MulSpecVars(n: nat)
    ensures MulSpec(n).variables == Reset(ControlDeclared(Registers(n), CTL), MulPlan(n).resets)
  {
    MulWellTexted(n);
    MulActionNames(n);
    MulBaseVars(n);
    DerivedActions(AbstractSpec(n), MulRequest(n), MulPlan(n));
  }

  lemma MulDeclaredWidths(n: nat)
    requires n >= 1
    ensures MulWidths(n, MulCircuit(n).widths)
  {
    MulSpecVars(n);
    DigestWidths(MulSpec(n), ControlDeclared(Registers(n), CTL), MulPlan(n).resets, "rst", false);
    WidthsListed(n);
    Pow2Exceeds(n);
  }

  lemma {:induction false} Pow2Exceeds(n: nat)
    ensures n < Pow2(n)
  {
    if n > 0 {
      Pow2Exceeds(n - 1);
    }
  }

  lemma WidthsListed(n: nat)
    requires n >= 1
    ensures var w := WidthsOf(ControlDeclared(Registers(n), CTL), "rst");
      && WidthOf(w, PRODUCT) == Some(2 * n) && WidthOf(w, MCAND) == Some(2 * n)
      && WidthOf(w, MPLIER) == Some(n) && WidthOf(w, COUNT) == Some(n)
  {
    NamesDiffer();
    ControlNamesDiffer();
    MulControlNew(n);
    ControlAppended(Registers(n), CTL);
    RegisterWidths(n);
    var vs := Registers(n);
    var sv, dv := Variable("state", 2, false, false, true, Some([TNum(0)])), Variable("done", 1, false, true, false, None);
    assert (vs + [sv, dv])[..5] == vs + [sv] && (vs + [sv])[..4] == vs;
    assert WidthsOf(vs + [sv], "rst") == WidthsOf(vs, "rst")["state" := 2];
    assert WidthsOf(vs + [sv, dv], "rst") == WidthsOf(vs, "rst")["state" := 2]["done" := 1];
  }

  lemma RegisterWidths(n: nat)
    requires n >= 1
    ensures WidthsOf(Registers(n), "rst") == map[PRODUCT := 2 * n, MCAND := 2 * n, MPLIER := n, COUNT := n]
  {
    NamesDiffer();
    ControlNamesDiffer();
    var vs := Registers(n);
    assert vs[..3][..2] == vs[..2] && vs[..2][..1] == vs[..1] && vs[..1][..0] == [];
    assert WidthsOf(vs[..1], "rst") == map[PRODUCT := 2 * n];
    assert WidthsOf(vs[..2], "rst") == map[PRODUCT := 2 * n, MCAND := 2 * n];
    assert WidthsOf(vs[..3], "rst") == map[PRODUCT := 2 * n, MCAND := 2 * n, MPLIER := n];
  }

  /** From `product = a * b` to hardware, for every operand width from 1 to 32. */
  lemma DerivedMultiplies(n: nat, s0: Env, stimulus: seq<Vector>, tr: Trace, i: nat)
    requires 1 <= n <= 32
    requires GoodStimulus(MulMachine(n), MulDerivation(n), MulCircuit(n), stimulus)
    requires IsRun(MulCircuit(n), s0, stimulus, tr)
    requires i <= |stimulus| && Lookup(tr.states[i], "done") == V(1)
    ensures Multiplied(n, tr, i)
  {
    MulDerives(n);
    MulDeclaredWidths(n);
    MultiplierMultiplies(n, MulCircuit(n), s0, stimulus, tr, i);
  }

  // ---------------------------------------------------------------------------
  // The multiplier seen from outside
  // ---------------------------------------------------------------------------

  /** The vector starts `x * y`: start is 1 and the operands are `x` and `y`. */
  predicate Asks(inputs: Vector, x: nat, y: nat) {
    && "start" in inputs && inputs["start"] == V(1)
    && "a" in inputs && inputs["a"] == V(x) && "b" in inputs && inputs["b"] == V(y)
  }

  /** The vector does not raise the reset. */
  predicate KeepsGoing(inputs: Vector) {
    "rst" !in inputs || inputs["rst"] == X || inputs["rst"] == V(0)
  }

  lemma MulIsSound(n: nat)
    requires 1 <= n <= 32
    ensures Sound(MulMachine(n), MulDerivation(n), MulCircuit(n))
  {
    MulDerives(n);
    MulDeclaredWidths(n);
    MulLoopConditions(n, MulCircuit(n).widths);
    MulSchedules(n);
    MulOnBox(n);
    CorrectIsSound(MulMachine(n), MulDerivation(n), MulCircuit(n), n);
  }

  lemma MulExits(n: nat, v: Row)
    requires 1 <= n <= 32 && InBox(v, MulDerivation(n).Sizes())
    ensures |v| == 2 && ExitsAfter(MulDerivation(n), v, n)
  {
    MulBox(n, v);
    forall j | 0 <= j <= n
      ensures Holds(MulDerivation(n).guard, LoopState(MulDerivation(n), v, j)) <==> j < n
    {
      MulAt(n, v, j);
    }
  }

  lemma MulStarts(n: nat, inputs: Vector, x: nat, y: nat)
    requires Asks(inputs, x, y) && x < Pow2(n) && y < Pow2(n)
    ensures InBox([x, y], MulDerivation(n).Sizes()) && Starts(MulMachine(n), MulDerivation(n), inputs, [x, y])
  {
    var d := MulDerivation(n);
    assert d.inputs[0].0 == "a" && d.inputs[1].0 == "b" && d.Sizes()[0] == Pow2(n) && d.Sizes()[1] == Pow2(n);
  }

  lemma ServedProduct(n: nat, states: seq<Env>, t: nat, x: nat, y: nat)
    requires 1 <= n <= 32 && t + n + 1 < |states| && InBox([x, y], MulDerivation(n).Sizes())
    requires Serves(MulMachine(n), MulDerivation(n), states, t, [x, y], n)
    ensures Lookup(states[t + n + 1], "done") == V(1)
    ensures Lookup(states[t + n + 1], "product") == V(x * y % 0x1_0000_0000)
    ensures forall i | t < i <= t + n :: Lookup(states[i], "done") == V(0)
  {
    var m, d := MulMachine(n), MulDerivation(n);
    MulProduct(n, [x, y]);
    MulRegNames(n);
    assert ServesAt(m, d, states[t + n + 1], [x, y], n, n);
  }

  lemma RstStaysInactive(n: nat, inputs: Vector)
    requires KeepsGoing(inputs)
    ensures ResetInactive(MulCircuit(n), inputs)
  {
  }

  lemma MulServed(n: nat, s0: Env, stimulus: seq<Vector>, tr: Trace, t: nat, v: Row)
    requires 1 <= n <= 32 && GoodStimulus(MulMachine(n), MulDerivation(n), MulCircuit(n), stimulus)
    requires IsRun(MulCircuit(n), s0, stimulus, tr) && t + n < |stimulus| && InBox(v, MulDerivation(n).Sizes())
    requires Starts(MulMachine(n), MulDerivation(n), stimulus[t], v)
    requires t > 0 ==> Lookup(tr.states[t], "state") != V(1)
    requires forall i | t <= i <= t + n :: KeepsGoing(stimulus[i])
    ensures Serves(MulMachine(n), MulDerivation(n), tr.states, t, v, n)
  {
    var m, d, cfg := MulMachine(n), MulDerivation(n), MulCircuit(n);
    MulIsSound(n);
    MulExits(n, v);
    if t == 0 {
      FirstIsIdle(m, d, cfg, s0, stimulus, tr);
    }
    forall i | t <= i <= t + n
      ensures ResetInactive(cfg, stimulus[i])
    {
      RstStaysInactive(n, stimulus[i]);
    }
    StimulusServed(m, d, cfg, s0, stimulus, tr, t, v, n);
  }

  /**
    A vector with start at 1 and operands `x` and `y`, at a circuit that is not BUSY, and `n` more
    vectors without reset: the rows show done low, and with the last of them done high and the product.
    The first vector finds the circuit idle.
    */
  lemma StimulusMultiplied(n: nat, s0: Env, stimulus: seq<Vector>, tr: Trace, t: nat, x: nat, y: nat)
    requires 1 <= n <= 32 && GoodStimulus(MulMachine(n), MulDerivation(n), MulCircuit(n), stimulus)
    requires IsRun(MulCircuit(n), s0, stimulus, tr)
    requires t + n < |stimulus| && x < Pow2(n) && y < Pow2(n) && Asks(stimulus[t], x, y)
    requires t > 0 ==> Lookup(tr.states[t], "state") != V(1)
    requires forall i | t <= i <= t + n :: KeepsGoing(stimulus[i])
    ensures Observe(tr.states[t + n + 1], ["done", "product"]) == map["done" := 1, "product" := x * y % 0x1_0000_0000]
    ensures forall i | t < i <= t + n :: Observe(tr.states[i], ["done"]) == map["done" := 0]
  {
    MulStarts(n, stimulus[t], x, y);
    MulServed(n, s0, stimulus, tr, t, [x, y]);
    ServedProduct(n, tr.states, t, x, y);
    ProductRow(tr.states[t + n + 1], x * y % 0x1_0000_0000);
    forall i | t < i <= t + n
      ensures Observe(tr.states[i], ["done"]) == map["done" := 0]
    {
      BusyRow(tr.states[i]);
    }
  }

  lemma ProductRow(s: Env, p: nat)
    requires Lookup(s, "done") == V(1) && Lookup(s, "product") == V(p)
    ensures Observe(s, ["done", "product"]) == map["done" := 1, "product" := p]
  {
  }

  lemma BusyRow(s: Env)
    requires Lookup(s, "done") == V(0)
    ensures Observe(s, ["done"]) == map["done" := 0]
  {
  }
}
