/**
  `TRUE` and `FALSE` in Verilog: the translator passes them through as names. Proved: on flat form
  Verilog reads the translation as the original expression exactly when they do not occur.
  */
module TruthWords {
  import opened Expressions
  import opened Grammar
  import opened Verilog
  import opened Scheduling
  import opened Translation

  // ---------------------------------------------------------------------------
  // Every name token is read, and only name tokens are
  // ---------------------------------------------------------------------------

  /** Every name between `i` and `j` is among `xs`. */
  ghost predicate NamesIn(v: VText, i: nat, j: nat, xs: set<Name>)
    requires i <= j <= |v|
  {
    forall k | i <= k < j && v[k].VId? :: v[k].x in xs
  }

  lemma NamesJoin(v: VText, i: nat, j: nat, k: nat, xs: set<Name>, ys: set<Name>, zs: set<Name>)
    requires i <= j <= k <= |v| && NamesIn(v, i, j, xs) && NamesIn(v, j, k, ys) && xs <= zs && ys <= zs
    ensures NamesIn(v, i, k, zs)
  {
  }

  /** What Verilog reads mentions every name it has consumed. */
  lemma {:induction false} VReadsNames(g: VRule, v: VText, i: nat)
    requires VLegal(g) && i <= |v| && VRun(g, v, i).Good?
    ensures i <= VRun(g, v, i).next <= |v| && NamesIn(v, i, VRun(g, v, i).next, Reads(VRun(g, v, i).e))
    ensures g.VRRest? ==> Reads(g.acc) <= Reads(VRun(g, v, i).e)
    decreases |v| - i, VRank(g)
  {
    var r := VRun(g, v, i);
    match g
    case VRExpr => VExprNames(v, i);
    case VRLevel(l) =>
      if l == VUNARY {
        VReadsNames(VRUnary, v, i);
      } else {
        var a := VParseLevel(v, i, l + 1);
        VReadsNames(VRLevel(l + 1), v, i);
        VReadsNames(VRRest(l, a.e), v, a.next);
        NamesJoin(v, i, a.next, r.next, Reads(a.e), Reads(r.e), Reads(r.e));
      }
    case VRRest(l, a) =>
      if VOpHere(v, i, l) {
        var b := VParseLevel(v, i + 1, l + 1);
        VReadsNames(VRLevel(l + 1), v, i + 1);
        VReadsNames(VRRest(l, Bin(VOpAt(l, v[i]).value, a, b.e)), v, b.next);
        NamesJoin(v, i + 1, b.next, r.next, Reads(b.e), Reads(r.e), Reads(r.e));
      }
    case VRUnary =>
      if VUnAt(v[i]).Some? {
        VReadsNames(VRUnary, v, i + 1);
      } else {
        VReadsNames(VRPrimary, v, i);
      }
    case VRPrimary => VPrimaryNames(v, i);
  }

  lemma {:induction false} VExprNames(v: VText, i: nat)
    requires i <= |v| && VParseExpr(v, i).Good?
    ensures NamesIn(v, i, VParseExpr(v, i).next, Reads(VParseExpr(v, i).e))
    decreases |v| - i, 9, 0
  {
    var r, c := VParseExpr(v, i), VParseLevel(v, i, VOR);
    VReadsNames(VRLevel(VOR), v, i);
    if VAt(v, c.next, VQuery) {
      var t := VParseExpr(v, c.next + 1);
      VReadsNames(VRExpr, v, c.next + 1);
      VReadsNames(VRExpr, v, t.next + 1);
      NamesJoin(v, i, c.next, c.next + 1, Reads(c.e), {}, Reads(r.e));
      NamesJoin(v, i, c.next + 1, t.next, Reads(r.e), Reads(t.e), Reads(r.e));
      NamesJoin(v, i, t.next, t.next + 1, Reads(r.e), {}, Reads(r.e));
      NamesJoin(v, i, t.next + 1, r.next, Reads(r.e), Reads(VParseExpr(v, t.next + 1).e), Reads(r.e));
    }
  }

  lemma {:induction false} VPrimaryNames(v: VText, i: nat)
    requires i <= |v| && VParsePrimary(v, i).Good?
    ensures NamesIn(v, i, VParsePrimary(v, i).next, Reads(VParsePrimary(v, i).e))
    decreases |v| - i, 0, 0
  {
    if v[i].VLPar? {
      VReadsNames(VRExpr, v, i + 1);
    } else if v[i].VId? && VAt(v, i + 1, VLBrk) {
      VReadsNames(VRExpr, v, i + 2);
    }
  }

  /** Some token between `i` and `j` is the name `x`. */
  predicate Named(s: Text, i: nat, j: nat, x: Name)
    requires i <= j <= |s|
  {
    exists k | i <= k < j :: s[k].TId? && s[k].x == x
  }

  /** A name that is read was a token. */
  lemma {:induction false} ReadsAreTokens(g: Rule, s: Text, i: nat, x: Name)
    requires Legal(g) && i <= |s| && Run(g, true, s, i).Good? && x in Reads(Run(g, true, s, i).e)
    requires g.RRest? ==> x !in Reads(g.acc)
    ensures i <= Run(g, true, s, i).next <= |s| && Named(s, i, Run(g, true, s, i).next, x)
    decreases |s| - i, Rank(g)
  {
    match g
    case RExpr =>
      if At(s, i, TIf) {
        IfTokens(s, i, x);
      } else {
        ReadsAreTokens(RLevel(OR), s, i, x);
      }
    case RLevel(l) =>
      if l == UNARY {
        ReadsAreTokens(RUnary, s, i, x);
      } else {
        var a := ParseLevel(true, s, i, l + 1);
        if x in Reads(a.e) {
          ReadsAreTokens(RLevel(l + 1), s, i, x);
        } else {
          ReadsAreTokens(RRest(l, a.e), s, a.next, x);
        }
      }
    case RRest(l, a) =>
      if OpHere(s, i, l) {
        var b := ParseLevel(true, s, i + 1, l + 1);
        if x in Reads(b.e) {
          ReadsAreTokens(RLevel(l + 1), s, i + 1, x);
        } else {
          ReadsAreTokens(RRest(l, Bin(OpAt(l, s[i]).value, a, b.e)), s, b.next, x);
        }
      }
    case RUnary =>
      if UnAt(s[i]).Some? {
        ReadsAreTokens(RUnary, s, i + 1, x);
      } else {
        ReadsAreTokens(RPrimary, s, i, x);
      }
    case RPrimary =>
      PrimaryTokens(s, i, x);
  }

  lemma {:induction false} IfTokens(s: Text, i: nat, x: Name)
    requires i <= |s| && At(s, i, TIf) && ParseExpr(true, s, i).Good? && x in Reads(ParseExpr(true, s, i).e)
    ensures Named(s, i, ParseExpr(true, s, i).next, x)
    decreases |s| - i, 0
  {
    var c := ParseExpr(true, s, i + 1);
    var t := ParseExpr(true, s, c.next + 1);
    if x in Reads(c.e) {
      ReadsAreTokens(RExpr, s, i + 1, x);
    } else if x in Reads(t.e) {
      ReadsAreTokens(RExpr, s, c.next + 1, x);
    } else {
      ReadsAreTokens(RExpr, s, t.next + 1, x);
    }
  }

  lemma {:induction false} PrimaryTokens(s: Text, i: nat, x: Name)
    requires i < |s| && ParsePrimary(true, s, i).Good? && x in Reads(ParsePrimary(true, s, i).e)
    ensures Named(s, i, ParsePrimary(true, s, i).next, x)
    decreases |s| - i, 0
  {
    if s[i].TLPar? {
      ReadsAreTokens(RExpr, s, i + 1, x);
    } else if At(s, i + 1, TLBrk) && x != s[i].x {
      ReadsAreTokens(RExpr, s, i + 2, x);
    }
  }

  // ---------------------------------------------------------------------------
  // Truth words pass through
  // ---------------------------------------------------------------------------

  predicate Shown(v: VText, x: Name) {
    exists k | 0 <= k < |v| :: v[k] == VId(x)
  }

  /** A truth word is shown in the Verilog text. */
  predicate ShowsTruth(v: VText) {
    Shown(v, "TRUE") || Shown(v, "FALSE")
  }

  lemma BasicTruth(s: Text)
    ensures !Truthless(s) ==> ShowsTruth(BasicText(s))
  {
    if !Truthless(s) {
      var k :| 0 <= k < |s| && (s[k].TTrue? || s[k].TFalse?);
      assert BasicText(s)[k] == VId(Spelling(s[k]));
    }
  }

  lemma ShownInside(p: VText, v: VText, q: VText, x: Name)
    requires Shown(v, x)
    ensures Shown(p + v + q, x)
  {
    var k :| 0 <= k < |v| && v[k] == VId(x);
    assert (p + v + q)[|p| + k] == VId(x);
  }

  lemma TruthInside(p: VText, v: VText, q: VText)
    requires ShowsTruth(v)
    ensures ShowsTruth(p + v + q)
  {
    if Shown(v, "TRUE") {
      ShownInside(p, v, q, "TRUE");
    } else {
      ShownInside(p, v, q, "FALSE");
    }
  }

  lemma TernaryTruth(c: VText, t: VText, e: VText)
    requires ShowsTruth(c) || ShowsTruth(t) || ShowsTruth(e)
    ensures ShowsTruth(Ternary(c, t, e))
  {
    var w, mid, end := Ternary(c, t, e), [VRPar, VQuery, VLPar], [VRPar, VColon, VLPar];
    if ShowsTruth(c) {
      TruthInside([VLPar], c, mid + t + end + e + [VRPar]);
      assert w == [VLPar] + c + (mid + t + end + e + [VRPar]);
    } else if ShowsTruth(t) {
      TruthInside([VLPar] + c + mid, t, end + e + [VRPar]);
      assert w == ([VLPar] + c + mid) + t + (end + e + [VRPar]);
    } else {
      TruthInside([VLPar] + c + mid + t + end, e, [VRPar]);
    }
  }

  lemma {:induction false} TruthPasses(f: Tree, e: Expr)
    requires Shows(f, e) && FlatForm(f) && !NoTruthWords(f)
    ensures ShowsTruth(Translate(Show(f)))
    decreases f
  {
    match f
    case Leaf(s) =>
      BasicTruth(s);
    case Cond(g, t, l) =>
      ShowSealed(t, e.thn);
      TranslateSealed(g, Show(t), Show(l));
      BasicTruth(g);
      if !NoTruthWords(t) {
        TruthPasses(t, e.thn);
      }
      if !NoTruthWords(l) {
        TruthPasses(l, e.els);
      }
      TernaryTruth(BasicText(g), Translate(Show(t)), Translate(Show(l)));
    case Wrapped(i) =>
      TranslateWrapped(f, e);
      TruthPasses(i, e);
      TruthInside([VLPar], Translate(Show(i)), [VRPar]);
  }

  /** As the tokeniser has it: no name is spelled like a truth word. */
  predicate ProperNames(s: Text) {
    forall k | 0 <= k < |s| && s[k].TId? :: s[k].x != "TRUE" && s[k].x != "FALSE"
  }

  lemma TruthNotRead(s: Text, e: Expr)
    requires Denotes(s, e) && ProperNames(s)
    ensures "TRUE" !in Reads(e) && "FALSE" !in Reads(e)
  {
    if "TRUE" in Reads(e) {
      ReadsAreTokens(RExpr, s, 0, "TRUE");
    }
    if "FALSE" in Reads(e) {
      ReadsAreTokens(RExpr, s, 0, "FALSE");
    }
  }

  /** On flat form the translation means the expression exactly when no truth word occurs. */
  lemma TranslationMeansIff(f: Tree, e: Expr)
    requires Shows(f, e) && FlatForm(f) && ProperNames(Show(f))
    ensures VDenotes(Translate(Show(f)), e) <==> NoTruthWords(f)
  {
    if NoTruthWords(f) {
      TranslateDenotes(f, e);
    } else {
      TruthPasses(f, e);
      ShowDenotes(f, e);
      TruthNotRead(Show(f), e);
      if VDenotes(Translate(Show(f)), e) {
        VReadsNames(VRExpr, Translate(Show(f)), 0);
      }
    }
  }
}
