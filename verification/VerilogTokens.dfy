/**
  The characters of Verilog tokens, and what short Verilog texts mean: every operator the translator
  emits is spelled, and read, as the operator it came from.
  */
module VerilogTokens {
  import opened Expressions
  import opened Grammar
  import opened Verilog
  import opened Operators
  import Translation

  function VSpelling(t: VToken): string {
    match t
    case VQuery => "?" case VColon => ":"
    case VLPar => "(" case VRPar => ")" case VLBrk => "[" case VRBrk => "]"
    case VOr => "||" case VAnd => "&&" case VEq => "==" case VNe => "!="
    case VLe => "<=" case VGe => ">=" case VLt => "<" case VGt => ">"
    case VPlus => "+" case VMinus => "-" case VStar => "*" case VSlash => "/" case VPercent => "%" case VBang => "!"
    case VNum(_) => "" case VId(x) => x case VWord(w) => w
  }

  /** How Verilog writes an operator. */
  function VWritten(op: BinOp): string {
    match op
    case Or => "||" case And => "&&" case Eq => "==" case Ne => "!="
    case Le => "<=" case Ge => ">=" case Lt => "<" case Gt => ">"
    case Add => "+" case Sub => "-" case Mul => "*" case Div => "/" case Mod => "%"
  }

  predicate VStands(t: VToken, op: BinOp) {
    !t.VId? && !t.VWord? && VSpelling(t) == VWritten(op)
  }

  /** An operator of the engine language is emitted as Verilog writes it, and negation as `!`. */
  lemma OperatorTranslated(t: Token, op: BinOp)
    requires Stands(t, op)
    ensures VStands(Basic(t), op)
  {
    SpellingsDiffer(t);
  }

  lemma PunctuationTranslated(t: Token)
    requires !t.TId?
    ensures Spelling(t) in {"~", "!", "NOT"} ==> VSpelling(Basic(t)) == "!"
    ensures Spelling(t) in {"(", ")", "[", "]"} ==> VSpelling(Basic(t)) == Spelling(t)
  {
  }

  lemma VSpellingsDiffer(t: VToken)
    requires !t.VId? && !t.VWord?
    ensures VSpelling(t) == "||" ==> t.VOr?
    ensures VSpelling(t) == "&&" ==> t.VAnd?
    ensures VSpelling(t) == "==" ==> t.VEq?
    ensures VSpelling(t) == "!=" ==> t.VNe?
    ensures VSpelling(t) == "<=" ==> t.VLe?
    ensures VSpelling(t) == ">=" ==> t.VGe?
    ensures VSpelling(t) == "<" ==> t.VLt?
    ensures VSpelling(t) == ">" ==> t.VGt?
    ensures VSpelling(t) == "+" ==> t.VPlus?
    ensures VSpelling(t) == "-" ==> t.VMinus?
    ensures VSpelling(t) == "*" ==> t.VStar?
    ensures VSpelling(t) == "/" ==> t.VSlash?
    ensures VSpelling(t) == "%" ==> t.VPercent?
    ensures VSpelling(t) == "!" ==> t.VBang?
  {
  }

  function VBinds(op: BinOp): nat {
    match op
    case Or => VOR case And => VAND
    case Eq => VEQ case Ne => VEQ
    case Le => VREL case Ge => VREL case Lt => VREL case Gt => VREL
    case Add => VADD case Sub => VADD
    case Mul => VMUL case Div => VMUL case Mod => VMUL
  }

  lemma VStandsAt(t: VToken, op: BinOp)
    requires VStands(t, op)
    ensures forall l :: VOpAt(l, t) == if l == VBinds(op) then Some(op) else None
    ensures !t.VLBrk? && !t.VQuery?
  {
    VSpellingsDiffer(t);
  }

  /** Not a bracket, nor an operator of level `l` or tighter. */
  predicate Ends(t: VToken, l: nat) {
    !t.VLBrk? && forall k | l <= k < VUNARY :: VOpAt(k, t).None?
  }

  /** A name that no index and no tighter operator follows. */
  lemma {:induction false} VNameAt(w: VText, i: nat, l: nat)
    requires i < |w| && w[i].VId? && l <= VUNARY && (i + 1 < |w| ==> Ends(w[i + 1], l))
    ensures VParseLevel(w, i, l) == Good(Var(w[i].x), i + 1)
    decreases VUNARY - l
  {
    if l < VUNARY {
      VNameAt(w, i, l + 1);
      assert i + 1 < |w| ==> VOpAt(l, w[i + 1]).None?;
      assert VParseRest(w, i + 1, l, Var(w[i].x)) == Good(Var(w[i].x), i + 1);
    } else {
      assert VUnAt(w[i]).None?;
      assert VParsePrimary(w, i) == Good(Var(w[i].x), i + 1);
    }
  }

  /** What ends the text at one level is the whole text at every looser one. */
  lemma {:induction false} VLooser(w: VText, e: Expr, l: nat, at: nat)
    requires l <= at <= VUNARY && VParseLevel(w, 0, at) == Good(e, |w|)
    ensures VParseLevel(w, 0, l) == Good(e, |w|)
    decreases at - l
  {
    if l < at {
      VLooser(w, e, l + 1, at);
    }
  }

  /** Verilog reads an operator between two names as that operator. */
  lemma VOperatorReads(w: VText, op: BinOp)
    requires |w| == 3 && w[0].VId? && w[2].VId? && VStands(w[1], op)
    ensures VDenotes(w, Bin(op, Var(w[0].x), Var(w[2].x)))
  {
    var l, e := VBinds(op), Bin(op, Var(w[0].x), Var(w[2].x));
    VStandsAt(w[1], op);
    VNameAt(w, 0, l + 1);
    VNameAt(w, 2, l + 1);
    assert VParseRest(w, 3, l, e) == Good(e, 3);
    assert VParseRest(w, 1, l, Var(w[0].x)) == Good(e, 3);
    VLooser(w, e, VOR, l);
  }

  /** `c ? t : e` is the conditional with those three parts, in that order. */
  lemma VConditionalReads(c: Name, t: Name, e: Name)
    ensures VDenotes([VId(c), VQuery, VId(t), VColon, VId(e)], Ite(Var(c), Var(t), Var(e)))
  {
    var w := [VId(c), VQuery, VId(t), VColon, VId(e)];
    VNameAt(w, 0, VOR);
    VNameAt(w, 2, VOR);
    VNameAt(w, 4, VOR);
    assert VParseExpr(w, 4) == Good(Var(e), 5);
    assert VParseExpr(w, 2) == Good(Var(t), 3);
  }

  /** The translation of an operator between two names: the characters, and how Verilog reads them. */
  lemma OperatorTextTranslates(x: Name, t: Token, y: Name, op: BinOp)
    requires Stands(t, op)
    ensures var v := Translation.Translate([TId(x), t, TId(y)]);
      && |v| == 3 && v[0] == VId(x) && VSpelling(v[1]) == VWritten(op) && v[2] == VId(y)
      && VDenotes(v, Bin(op, Var(x), Var(y)))
  {
    var s := [TId(x), t, TId(y)];
    OperatorTranslated(t, op);
    assert Translation.Translate(s) == BasicText(s);
    VOperatorReads(BasicText(s), op);
  }
}
