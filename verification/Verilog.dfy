/**
  Verilog expressions as far as the compiler emits them, read with the precedence of section
  4.1.2 of IEEE 1364-2001: conditional, `||`, `&&`, equality, relational, additive,
  multiplicative, unary. Relational operators bind tighter than equality here, unlike in the
  engine language. Proved: an IF-free engine expression, translated token by token, is read by
  Verilog as the same expression.
  */
module Verilog {
  import opened Expressions
  import opened Grammar

  datatype VToken =
    | VQuery | VColon | VLPar | VRPar | VLBrk | VRBrk
    | VOr | VAnd | VEq | VNe | VLe | VGe | VLt | VGt
    | VPlus | VMinus | VStar | VSlash | VPercent | VBang
    | VNum(n: nat)
    | VId(x: Name)
    | VWord(w: Name)

  type VText = seq<VToken>

  // Precedence levels, loosest first.
  const VOR: nat := 0
  const VAND: nat := 1
  const VEQ: nat := 2
  const VREL: nat := 3
  const VADD: nat := 4
  const VMUL: nat := 5
  const VUNARY: nat := 6

  function VOpAt(lvl: nat, t: VToken): Option<BinOp> {
    if lvl == VOR then (if t.VOr? then Some(Or) else None)
    else if lvl == VAND then (if t.VAnd? then Some(And) else None)
    else if lvl == VEQ then if t.VEq? then Some(Eq) else if t.VNe? then Some(Ne) else None
    else if lvl == VREL then
      if t.VLe? then Some(Le) else if t.VGe? then Some(Ge) else if t.VLt? then Some(Lt) else if t.VGt? then Some(Gt) else None
    else if lvl == VADD then if t.VPlus? then Some(Add) else if t.VMinus? then Some(Sub) else None
    else if lvl == VMUL then
      if t.VStar? then Some(Mul) else if t.VSlash? then Some(Div) else if t.VPercent? then Some(Mod) else None
    else None
  }

  function VUnAt(t: VToken): Option<UnOp> {
    if t.VBang? then Some(Not) else if t.VMinus? then Some(Neg) else None
  }

  predicate VAt(s: VText, i: nat, t: VToken) {
    i < |s| && s[i] == t
  }

  predicate VOpHere(s: VText, i: nat, lvl: nat) {
    i < |s| && VOpAt(lvl, s[i]).Some?
  }

  function VParseExpr(s: VText, i: nat): (r: Parsed)
    requires i <= |s|
    ensures r.Good? ==> i < r.next <= |s|
    decreases |s| - i, 9
  {
    match VParseLevel(s, i, VOR)
    case Bad => Bad
    case Good(c, j) =>
      if !VAt(s, j, VQuery) then Good(c, j) else
      match VParseExpr(s, j + 1)
      case Bad => Bad
      case Good(t, k) =>
        if !VAt(s, k, VColon) then Bad else
        match VParseExpr(s, k + 1)
        case Bad => Bad
        case Good(e, m) => Good(Ite(c, t, e), m)
  }

  function VParseLevel(s: VText, i: nat, lvl: nat): (r: Parsed)
    requires i <= |s| && lvl <= VUNARY
    ensures r.Good? ==> i < r.next <= |s|
    decreases |s| - i, 8 - lvl
  {
    if lvl == VUNARY then VParseUnary(s, i)
    else match VParseLevel(s, i, lvl + 1)
      case Bad => Bad
      case Good(a, j) => VParseRest(s, j, lvl, a)
  }

  function VParseRest(s: VText, i: nat, lvl: nat, acc: Expr): (r: Parsed)
    requires i <= |s| && lvl < VUNARY
    ensures r.Good? ==> i <= r.next <= |s|
    decreases |s| - i, 0
  {
    if VOpHere(s, i, lvl) then
      match VParseLevel(s, i + 1, lvl + 1)
      case Bad => Bad
      case Good(b, j) => VParseRest(s, j, lvl, Bin(VOpAt(lvl, s[i]).value, acc, b))
    else Good(acc, i)
  }

  function VParseUnary(s: VText, i: nat): (r: Parsed)
    requires i <= |s|
    ensures r.Good? ==> i < r.next <= |s|
    decreases |s| - i, 1
  {
    if i < |s| && VUnAt(s[i]).Some? then
      match VParseUnary(s, i + 1)
      case Bad => Bad
      case Good(a, j) => Good(Un(VUnAt(s[i]).value, a), j)
    else VParsePrimary(s, i)
  }

  function VParsePrimary(s: VText, i: nat): (r: Parsed)
    requires i <= |s|
    ensures r.Good? ==> i < r.next <= |s|
    decreases |s| - i, 0
  {
    if i == |s| then Bad
    else if s[i].VLPar? then
      match VParseExpr(s, i + 1)
      case Bad => Bad
      case Good(e, j) => if VAt(s, j, VRPar) then Good(e, j + 1) else Bad
    else if s[i].VNum? then Good(Const(s[i].n), i + 1)
    else if !s[i].VId? then Bad
    else if !VAt(s, i + 1, VLBrk) then Good(Var(s[i].x), i + 1)
    else
      match VParseExpr(s, i + 2)
      case Bad => Bad
      case Good(e, j) => if VAt(s, j, VRBrk) then Good(Index(s[i].x, e), j + 1) else Bad
  }

  predicate VDenotes(s: VText, e: Expr) {
    VParseExpr(s, 0) == Good(e, |s|)
  }

  datatype VRule = VRExpr | VRLevel(lvl: nat) | VRRest(rest: nat, acc: Expr) | VRUnary | VRPrimary

  predicate VLegal(g: VRule) {
    (g.VRLevel? ==> g.lvl <= VUNARY) && (g.VRRest? ==> g.rest < VUNARY)
  }

  function VRank(g: VRule): nat {
    match g
    case VRExpr => 9
    case VRLevel(l) => if l <= VUNARY then 8 - l else 0
    case VRRest(_, _) => 0
    case VRUnary => 1
    case VRPrimary => 0
  }

  function VRun(g: VRule, s: VText, i: nat): (r: Parsed)
    requires VLegal(g) && i <= |s|
  {
    match g
    case VRExpr => VParseExpr(s, i)
    case VRLevel(l) => VParseLevel(s, i, l)
    case VRRest(l, a) => VParseRest(s, i, l, a)
    case VRUnary => VParseUnary(s, i)
    case VRPrimary => VParsePrimary(s, i)
  }

  /** A token after which no Verilog expression continues. */
  predicate VStops(t: VToken) {
    t.VRPar? || t.VRBrk? || t.VColon?
  }

  /** `w` holds `s` from `k` on; if the piece ends with `s`, a stopping token follows. */
  predicate VInside(s: VText, w: VText, k: nat, j: nat) {
    k + |s| <= |w| && w[k..k + |s|] == s && (j == |s| && k + |s| < |w| ==> VStops(w[k + |s|]))
  }

  lemma VTokenInside(s: VText, w: VText, k: nat, j: nat, i: nat)
    requires VInside(s, w, k, j) && i < |s|
    ensures w[k + i] == s[i]
  {
    assert w[k..k + |s|][i] == w[k + i];
  }

  lemma VNextInside(s: VText, w: VText, k: nat, j: nat)
    requires VInside(s, w, k, j) && j <= |s|
    ensures k + j < |w| ==> w[k + j] == (if j < |s| then s[j] else w[k + j]) && (j == |s| ==> VStops(w[k + j]))
  {
    if j < |s| {
      VTokenInside(s, w, k, j, j);
    }
  }

  /** A piece is read the same wherever it stands, as long as a stopping token follows. */
  lemma {:induction false} VEmbedded(g: VRule, s: VText, w: VText, k: nat, i: nat)
    requires VLegal(g) && i <= |s| && VRun(g, s, i).Good? && VInside(s, w, k, VRun(g, s, i).next)
    ensures VRun(g, w, k + i) == Shifted(VRun(g, s, i), k)
    decreases |s| - i, VRank(g)
  {
    var end := VRun(g, s, i).next;
    match g
    case VRExpr =>
      VExprEmbedded(s, w, k, i);
    case VRLevel(l) =>
      if l == VUNARY {
        VEmbedded(VRUnary, s, w, k, i);
      } else {
        var a := VParseLevel(s, i, l + 1);
        VEmbedded(VRLevel(l + 1), s, w, k, i);
        VEmbedded(VRRest(l, a.e), s, w, k, a.next);
      }
    case VRRest(l, a) =>
      VNextInside(s, w, k, i);
      if VOpHere(s, i, l) {
        VTokenInside(s, w, k, end, i);
        var b := VParseLevel(s, i + 1, l + 1);
        VEmbedded(VRLevel(l + 1), s, w, k, i + 1);
        VEmbedded(VRRest(l, Bin(VOpAt(l, s[i]).value, a, b.e)), s, w, k, b.next);
      } else {
        assert !VOpHere(w, k + i, l);
      }
    case VRUnary =>
      VTokenInside(s, w, k, end, i);
      if VUnAt(s[i]).Some? {
        VEmbedded(VRUnary, s, w, k, i + 1);
      } else {
        VEmbedded(VRPrimary, s, w, k, i);
      }
    case VRPrimary =>
      VPrimaryEmbedded(s, w, k, i);
  }

  lemma {:induction false} VExprEmbedded(s: VText, w: VText, k: nat, i: nat)
    requires i <= |s| && VParseExpr(s, i).Good? && VInside(s, w, k, VParseExpr(s, i).next)
    ensures VParseExpr(w, k + i) == Shifted(VParseExpr(s, i), k)
    decreases |s| - i, 9, 0
  {
    var c := VParseLevel(s, i, VOR);
    VEmbedded(VRLevel(VOR), s, w, k, i);
    if VAt(s, c.next, VQuery) {
      VBranchesEmbedded(s, w, k, i, c.e, c.next);
    } else {
      VNextInside(s, w, k, c.next);
    }
  }

  /** The two branches of a conditional, after its condition. */
  lemma {:induction false} VBranchesEmbedded(s: VText, w: VText, k: nat, i: nat, e: Expr, j: nat)
    requires i < j < |s| && VParseLevel(s, i, VOR) == Good(e, j) && VAt(s, j, VQuery)
    requires VParseExpr(s, i).Good? && VInside(s, w, k, VParseExpr(s, i).next)
    requires VParseLevel(w, k + i, VOR) == Good(e, k + j)
    ensures VParseExpr(w, k + i) == Shifted(VParseExpr(s, i), k)
    decreases |s| - i, 8, 0
  {
    var end := VParseExpr(s, i).next;
    var t := VParseExpr(s, j + 1);
    VTokenInside(s, w, k, end, j);
    VEmbedded(VRExpr, s, w, k, j + 1);
    VTokenInside(s, w, k, end, t.next);
    VEmbedded(VRExpr, s, w, k, t.next + 1);
  }

  lemma {:induction false} VPrimaryEmbedded(s: VText, w: VText, k: nat, i: nat)
    requires i <= |s| && VParsePrimary(s, i).Good? && VInside(s, w, k, VParsePrimary(s, i).next)
    ensures VParsePrimary(w, k + i) == Shifted(VParsePrimary(s, i), k)
    decreases |s| - i, 0, 1
  {
    var end := VParsePrimary(s, i).next;
    VTokenInside(s, w, k, end, i);
    if s[i].VLPar? {
      VEmbedded(VRExpr, s, w, k, i + 1);
      VTokenInside(s, w, k, end, VParseExpr(s, i + 1).next);
    } else if s[i].VId? {
      VNameEmbedded(s, w, k, i);
    }
  }

  lemma {:induction false} VNameEmbedded(s: VText, w: VText, k: nat, i: nat)
    requires i < |s| && s[i].VId? && VParsePrimary(s, i).Good? && VInside(s, w, k, VParsePrimary(s, i).next)
    ensures VParsePrimary(w, k + i) == Shifted(VParsePrimary(s, i), k)
    decreases |s| - i, 0, 0
  {
    var end := VParsePrimary(s, i).next;
    VTokenInside(s, w, k, end, i);
    if VAt(s, i + 1, VLBrk) {
      VTokenInside(s, w, k, end, i + 1);
      VEmbedded(VRExpr, s, w, k, i + 2);
      VTokenInside(s, w, k, end, VParseExpr(s, i + 2).next);
    } else {
      VNextInside(s, w, k, i + 1);
    }
  }

  // ---------------------------------------------------------------------------
  // IF-free expressions, token by token
  // ---------------------------------------------------------------------------

  /** `_translate_basic` on one token; keywords pass through untranslated. */
  function Basic(t: Token): VToken {
    if t.TLPar? then VLPar else if t.TRPar? then VRPar
    else if t.TLBrk? then VLBrk else if t.TRBrk? then VRBrk
    else if t.TOrSym? || t.TOrWord? then VOr
    else if t.TAndSym? || t.TAndWord? then VAnd
    else if t.TEq? then VEq else if t.TNe? then VNe
    else if t.TLe? then VLe else if t.TGe? then VGe else if t.TLt? then VLt else if t.TGt? then VGt
    else if t.TPlus? then VPlus else if t.TMinus? then VMinus
    else if t.TStar? then VStar else if t.TSlash? then VSlash
    else if t.TPercent? || t.TModWord? then VPercent
    else if t.TTilde? || t.TBang? || t.TNotWord? then VBang
    else if t.TNum? then VNum(t.n)
    else if t.TId? then VId(t.x)
    else if t.TTrue? || t.TFalse? then VId(Spelling(t))
    else VWord(Spelling(t))
  }

  function BasicText(s: Text): (v: VText)
    ensures |v| == |s|
  {
    seq(|s|, k requires 0 <= k < |s| => Basic(s[k]))
  }

  /** Tokens with a Verilog counterpart. */
  predicate Translatable(t: Token) {
    !(t.TIf? || t.TThen? || t.TElse? || t.TTrue? || t.TFalse?)
  }

  predicate AllTranslatable(s: Text) {
    forall k | 0 <= k < |s| :: Translatable(s[k])
  }

  predicate Comparison(s: Text, i: nat) {
    OpHere(s, i, CMP)
  }

  function VLevelFor(l: nat): nat
    requires l <= UNARY
  {
    if l <= CMP then l else l + 1
  }

  function VRuleFor(g: Rule): VRule
    requires Legal(g)
  {
    match g
    case RExpr => VRExpr
    case RLevel(l) => VRLevel(VLevelFor(l))
    case RRest(l, a) => VRRest(VLevelFor(l), a)
    case RUnary => VRUnary
    case RPrimary => VRPrimary
  }

  /** Rules that may be followed by another comparison. */
  predicate Tight(g: Rule) {
    match g
    case RExpr => false
    case RLevel(l) => l > CMP
    case RRest(l, _) => l > CMP
    case _ => true
  }

  lemma BasicOps(s: Text, i: nat, l: nat)
    requires l < UNARY && l != CMP && i <= |s|
    ensures VOpHere(BasicText(s), i, VLevelFor(l)) == OpHere(s, i, l)
    ensures OpHere(s, i, l) ==> VOpAt(VLevelFor(l), BasicText(s)[i]) == OpAt(l, s[i])
  {
  }

  lemma BasicCompares(s: Text, i: nat)
    requires i <= |s|
    ensures !Comparison(s, i) ==> !VOpHere(BasicText(s), i, VEQ) && !VOpHere(BasicText(s), i, VREL)
    ensures Comparison(s, i) ==>
      if VOpHere(BasicText(s), i, VEQ)
      then VOpAt(VEQ, BasicText(s)[i]) == OpAt(CMP, s[i]) && !VOpHere(BasicText(s), i, VREL)
      else VOpHere(BasicText(s), i, VREL) && VOpAt(VREL, BasicText(s)[i]) == OpAt(CMP, s[i])
  {
  }

  /** A well-bracketed IF-free piece, not followed by a second comparison, is the same piece in Verilog. */
  lemma {:induction false} BasicReads(g: Rule, s: Text, i: nat)
    requires Legal(g) && i <= |s| && AllTranslatable(s) && !(g.RRest? && g.rest == CMP)
    requires Run(g, true, s, i).Good?
    requires Tight(g) || !Comparison(s, Run(g, true, s, i).next)
    ensures VRun(VRuleFor(g), BasicText(s), i) == Run(g, true, s, i)
    decreases |s| - i, Rank(g)
  {
    match g
    case RExpr =>
      BasicReads(RLevel(OR), s, i);
      NoQuery(s, ParseExpr(true, s, i).next);
    case RLevel(l) =>
      if l == UNARY {
        BasicReads(RUnary, s, i);
      } else if l == CMP {
        CompareReads(s, i);
      } else {
        BasicLevel(l, s, i);
      }
    case RRest(l, a) =>
      BasicRest(l, a, s, i);
    case RUnary =>
      if UnAt(s[i]).Some? {
        BasicReads(RUnary, s, i + 1);
      } else {
        BasicReads(RPrimary, s, i);
      }
    case RPrimary =>
      BasicPrimary(s, i);
  }

  lemma NoQuery(s: Text, j: nat)
    ensures !VAt(BasicText(s), j, VQuery)
  {
  }

  lemma {:induction false} BasicLevel(l: nat, s: Text, i: nat)
    requires l < UNARY && l != CMP && i <= |s| && AllTranslatable(s) && ParseLevel(true, s, i, l).Good?
    requires l > CMP || !Comparison(s, ParseLevel(true, s, i, l).next)
    ensures VParseLevel(BasicText(s), i, VLevelFor(l)) == ParseLevel(true, s, i, l)
    decreases |s| - i, 8 - l, 0
  {
    var a := ParseLevel(true, s, i, l + 1);
    if l < CMP {
      RestNotCompare(s, a.next, l, a.e);
    }
    BasicReads(RLevel(l + 1), s, i);
    BasicReads(RRest(l, a.e), s, a.next);
  }

  /** An operand of `\/` or `/\` is followed by its operator or by what follows the whole. */
  lemma {:induction false} RestNotCompare(s: Text, i: nat, l: nat, a: Expr)
    requires l < CMP && i <= |s| && ParseRest(true, s, i, l, a).Good?
    requires !Comparison(s, ParseRest(true, s, i, l, a).next)
    ensures !Comparison(s, i)
  {
  }

  lemma {:induction false} BasicRest(l: nat, a: Expr, s: Text, i: nat)
    requires l < UNARY && l != CMP && i <= |s| && AllTranslatable(s) && ParseRest(true, s, i, l, a).Good?
    requires l > CMP || !Comparison(s, ParseRest(true, s, i, l, a).next)
    ensures VParseRest(BasicText(s), i, VLevelFor(l), a) == ParseRest(true, s, i, l, a)
    decreases |s| - i, 0, 0
  {
    BasicOps(s, i, l);
    if OpHere(s, i, l) {
      var b := ParseLevel(true, s, i + 1, l + 1);
      var e := Bin(OpAt(l, s[i]).value, a, b.e);
      if l < CMP {
        RestNotCompare(s, b.next, l, e);
      }
      BasicReads(RLevel(l + 1), s, i + 1);
      BasicRest(l, e, s, b.next);
    }
  }

  /** One comparison at most: equality and relational operators cannot mix. */
  lemma {:induction false} CompareReads(s: Text, i: nat)
    requires i <= |s| && AllTranslatable(s) && ParseLevel(true, s, i, CMP).Good?
    requires !Comparison(s, ParseLevel(true, s, i, CMP).next)
    ensures VParseLevel(BasicText(s), i, VEQ) == ParseLevel(true, s, i, CMP)
    decreases |s| - i, 6, 0
  {
    var v, end := BasicText(s), ParseLevel(true, s, i, CMP).next;
    var a := ParseLevel(true, s, i, ADD);
    BasicReads(RLevel(ADD), s, i);
    BasicCompares(s, a.next);
    BasicCompares(s, end);
    if Comparison(s, a.next) {
      var b := ParseLevel(true, s, a.next + 1, ADD);
      BasicReads(RLevel(ADD), s, a.next + 1);
      assert b.next == end;
      assert VParseRest(v, end, VREL, b.e) == Good(b.e, end);
      var e := Bin(OpAt(CMP, s[a.next]).value, a.e, b.e);
      assert VParseRest(v, end, VREL, e) == Good(e, end) == VParseRest(v, end, VEQ, e);
      if VOpHere(v, a.next, VEQ) {
        assert VParseLevel(v, i, VREL) == a;
        assert VParseLevel(v, a.next + 1, VREL) == b;
      } else {
        assert VParseLevel(v, i, VREL) == Good(e, end);
      }
    } else {
      assert VParseRest(v, end, VREL, a.e) == a == VParseRest(v, end, VEQ, a.e);
      assert VParseLevel(v, i, VREL) == a;
    }
  }

  lemma {:induction false} BasicPrimary(s: Text, i: nat)
    requires i <= |s| && AllTranslatable(s) && ParsePrimary(true, s, i).Good?
    ensures VParsePrimary(BasicText(s), i) == ParsePrimary(true, s, i)
    decreases |s| - i, 0, 1
  {
    if s[i].TLPar? {
      BasicReads(RExpr, s, i + 1);
    } else if s[i].TId? {
      BasicName(s, i);
    }
  }

  lemma BasicBrackets(s: Text, i: nat)
    requires i <= |s| && AllTranslatable(s)
    ensures VAt(BasicText(s), i, VLBrk) <==> At(s, i, TLBrk)
    ensures VAt(BasicText(s), i, VRBrk) <==> At(s, i, TRBrk)
  {
  }

  lemma BasicPlainName(s: Text, i: nat)
    requires i < |s| && s[i].TId? && AllTranslatable(s) && !At(s, i + 1, TLBrk)
    ensures VParsePrimary(BasicText(s), i) == ParseName(true, s, i)
  {
    BasicBrackets(s, i + 1);
    assert BasicText(s)[i] == VId(s[i].x);
  }

  lemma BasicIndexed(s: Text, i: nat)
    requires i < |s| && s[i].TId? && AllTranslatable(s) && At(s, i + 1, TLBrk) && ParseName(true, s, i).Good?
    requires VParseExpr(BasicText(s), i + 2) == ParseExpr(true, s, i + 2)
    ensures VParsePrimary(BasicText(s), i) == ParseName(true, s, i)
  {
    BasicBrackets(s, i + 1);
    BasicBrackets(s, ParseExpr(true, s, i + 2).next);
    assert BasicText(s)[i] == VId(s[i].x);
  }

  lemma {:induction false} BasicName(s: Text, i: nat)
    requires i < |s| && s[i].TId? && AllTranslatable(s) && ParseName(true, s, i).Good?
    ensures VParsePrimary(BasicText(s), i) == ParseName(true, s, i)
    decreases |s| - i, 0, 0
  {
    if At(s, i + 1, TLBrk) {
      BasicReads(RExpr, s, i + 2);
      BasicIndexed(s, i);
    } else {
      BasicPlainName(s, i);
    }
  }

  /** An IF-free engine expression is read by Verilog as the same expression. */
  lemma BasicDenotes(s: Text, e: Expr)
    requires Denotes(s, e) && AllTranslatable(s)
    ensures VDenotes(BasicText(s), e)
  {
    BasicReads(RExpr, s, 0);
  }
}
