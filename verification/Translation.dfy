/**
  The compiler's expression translator. It cuts an IF chain at depth 0, recurses into THEN and
  ELSE, opens one enclosing pair of parentheses around a conditional, and translates everything
  else token by token. Proved: no IF, THEN or ELSE is left over exactly when the text has flat
  form, and then Verilog reads the translation as the original expression; the chains the bridge
  and the scheduler build have flat form.
  */
module Translation {
  import opened Expressions
  import opened Grammar
  import opened Handshake
  import opened Splicing
  import opened Scheduling
  import opened Verilog

  // ---------------------------------------------------------------------------
  // The splitter and the stripper
  // ---------------------------------------------------------------------------

  /** The first THEN outside parentheses, and the first ELSE outside parentheses behind it. */
  function SplitIf(s: Text): (r: Option<(nat, nat)>)
    ensures r.Some? ==> 0 < r.value.0 < r.value.1 < |s|
  {
    if s == [] || !s[0].TIf? then None
    else match Top(s, Then, 1)
      case None => None
      case Some(t) =>
        match Top(s, Else, t + 1)
        case None => None
        case Some(e) => Some((t, e))
  }

  /** Search for a keyword from token `i`, counting parentheses from there. */
  method FindAtDepthZero(s: Text, kw: Keyword, start: nat) returns (r: Option<nat>)
    requires start <= |s| && Depth(s, start) == 0
    ensures r == Top(s, kw, start)
  {
    var depth, i := 0, start;
    while i < |s|
      invariant start <= i <= |s| && depth == Depth(s, i)
      invariant Top(s, kw, start) == Top(s, kw, i)
    {
      if s[i].TLPar? {
        depth := depth + 1;
      } else if s[i].TRPar? {
        depth := depth - 1;
      } else if depth == 0 && Is(s[i], kw) {
        return Some(i);
      }
      i := i + 1;
    }
    return None;
  }

  /** `_split_if_then_else` */
  method SplitIfThenElse(s: Text) returns (r: Option<(Text, Text, Text)>)
    ensures match SplitIf(s)
      case None => r == None
      case Some((t, e)) => r == Some((s[1..t], s[t + 1..e], s[e + 1..]))
  {
    if s == [] || !s[0].TIf? {
      return None;
    }
    assert Depth(s, 1) == Depth(s, 0) == 0;
    var t := FindAtDepthZero(s, Then, 1);
    if t.None? {
      return None;
    }
    assert Depth(s, t.value + 1) == Depth(s, t.value) == 0;
    var e := FindAtDepthZero(s, Else, t.value + 1);
    if e.None? {
      return None;
    }
    return Some((s[1..t.value], s[t.value + 1..e.value], s[e.value + 1..]));
  }

  predicate ClosesAt(s: Text, i: nat) {
    i < |s| && s[i].TRPar? && Depth(s, i + 1) == 0
  }

  /** The first closing parenthesis that brings the depth back to 0. */
  function Close(s: Text, i: nat): (r: Option<nat>)
    ensures r.Some? ==> i <= r.value && ClosesAt(s, r.value) && forall j | i <= j < r.value :: !ClosesAt(s, j)
    ensures r.None? ==> forall j | i <= j :: !ClosesAt(s, j)
    decreases |s| - i
  {
    if i >= |s| then None else if ClosesAt(s, i) then Some(i) else Close(s, i + 1)
  }

  /** The inside of one pair of parentheses around the whole text. */
  function Strip(s: Text): (r: Option<Text>)
    ensures r.Some? ==> |r.value| + 2 == |s|
  {
    if |s| >= 2 && s[0].TLPar? && Close(s, 0) == Some(|s| - 1) then Some(s[1..|s| - 1]) else None
  }

  /** `_strip_enclosing_parens` */
  method StripEnclosingParens(s: Text) returns (r: Option<Text>)
    ensures r == Strip(s)
  {
    if |s| < 2 || !s[0].TLPar? || !s[|s| - 1].TRPar? {
      return None;
    }
    var depth := 0;
    for i := 0 to |s|
      invariant depth == Depth(s, i)
      invariant Close(s, 0) == Close(s, i)
    {
      if s[i].TLPar? {
        depth := depth + 1;
      } else if s[i].TRPar? {
        depth := depth - 1;
        if depth == 0 {
          return if i == |s| - 1 then Some(s[1..|s| - 1]) else None;
        }
      }
    }
    return None;
  }

  predicate StartsIf(s: Text) {
    s != [] && s[0].TIf?
  }

  function Ternary(c: VText, t: VText, e: VText): VText {
    [VLPar] + c + [VRPar, VQuery, VLPar] + t + [VRPar, VColon, VLPar] + e + [VRPar]
  }

  /** `translate_expr` */
  function Translate(s: Text): VText
    decreases |s|
  {
    match SplitIf(s)
    case Some((t, e)) => Ternary(BasicText(s[1..t]), Translate(s[t + 1..e]), Translate(s[e + 1..]))
    case None =>
      match Strip(s)
      case Some(inner) => if StartsIf(inner) then [VLPar] + Translate(inner) + [VRPar] else BasicText(s)
      case None => BasicText(s)
  }

  // ---------------------------------------------------------------------------
  // Parentheses of what is read
  // ---------------------------------------------------------------------------

  ghost predicate Above(s: Text, i: nat, j: nat)
    requires i <= j <= |s|
  {
    Depth(s, j) == Depth(s, i) && forall k | i <= k <= j :: Depth(s, k) >= Depth(s, i)
  }

  /** Whatever is read closes the parentheses it opens and no others. */
  lemma {:induction false} ReadsBalanced(g: Rule, s: Text, i: nat)
    requires Legal(g) && i <= |s| && Run(g, true, s, i).Good?
    ensures i <= Run(g, true, s, i).next && Above(s, i, Run(g, true, s, i).next)
    decreases |s| - i, Rank(g)
  {
    match g
    case RExpr =>
      if At(s, i, TIf) {
        IfBalanced(s, i);
      } else {
        ReadsBalanced(RLevel(OR), s, i);
      }
    case RLevel(l) =>
      if l == UNARY {
        ReadsBalanced(RUnary, s, i);
      } else {
        var a := ParseLevel(true, s, i, l + 1);
        ReadsBalanced(RLevel(l + 1), s, i);
        ReadsBalanced(RRest(l, a.e), s, a.next);
      }
    case RRest(l, a) =>
      if OpHere(s, i, l) {
        var b := ParseLevel(true, s, i + 1, l + 1);
        assert Depth(s, i + 1) == Depth(s, i);
        ReadsBalanced(RLevel(l + 1), s, i + 1);
        if l != CMP {
          ReadsBalanced(RRest(l, Bin(OpAt(l, s[i]).value, a, b.e)), s, b.next);
        }
      }
    case RUnary =>
      if UnAt(s[i]).Some? {
        assert Depth(s, i + 1) == Depth(s, i);
        ReadsBalanced(RUnary, s, i + 1);
      } else {
        ReadsBalanced(RPrimary, s, i);
      }
    case RPrimary =>
      PrimaryBalanced(s, i);
  }

  /** A token that turns nothing, in front of a balanced piece. */
  lemma AboveBehind(s: Text, i: nat, j: nat)
    requires i < j <= |s| && Turn(s[i]) == 0 && Above(s, i + 1, j)
    ensures Above(s, i, j)
  {
    assert Depth(s, i + 1) == Depth(s, i);
  }

  lemma AboveJoins(s: Text, i: nat, j: nat, k: nat)
    requires i <= j <= k <= |s| && Above(s, i, j) && Above(s, j, k)
    ensures Above(s, i, k)
  {
  }

  lemma {:induction false} IfBalanced(s: Text, i: nat)
    requires i <= |s| && At(s, i, TIf) && ParseExpr(true, s, i).Good?
    ensures Above(s, i, ParseExpr(true, s, i).next)
    decreases |s| - i, 0
  {
    ReadsBalanced(RExpr, s, i + 1);
    var j := ParseExpr(true, s, i + 1).next;
    AboveBehind(s, i, j);
    ReadsBalanced(RExpr, s, j + 1);
    var k := ParseExpr(true, s, j + 1).next;
    AboveBehind(s, j, k);
    AboveJoins(s, i, j, k);
    ReadsBalanced(RExpr, s, k + 1);
    var n := ParseExpr(true, s, k + 1).next;
    AboveBehind(s, k, n);
    AboveJoins(s, i, k, n);
  }

  lemma {:induction false} PrimaryBalanced(s: Text, i: nat)
    requires i < |s| && ParsePrimary(true, s, i).Good?
    ensures Above(s, i, ParsePrimary(true, s, i).next)
    decreases |s| - i, 0
  {
    assert Depth(s, i + 1) == Depth(s, i) + Turn(s[i]);
    if s[i].TLPar? {
      ReadsBalanced(RExpr, s, i + 1);
      var j := ParseExpr(true, s, i + 1).next;
      assert Depth(s, j + 1) == Depth(s, j) + Turn(s[j]);
    } else if s[i].TId? && At(s, i + 1, TLBrk) {
      assert Depth(s, i + 2) == Depth(s, i + 1) + Turn(s[i + 1]);
      ReadsBalanced(RExpr, s, i + 2);
      var j := ParseExpr(true, s, i + 2).next;
      assert Depth(s, j + 1) == Depth(s, j) + Turn(s[j]);
    }
  }

  lemma DenotedBalanced(s: Text, e: Expr)
    requires Denotes(s, e)
    ensures Above(s, 0, |s|)
  {
    ReadsBalanced(RExpr, s, 0);
  }

  /** Inside enclosing parentheses the depth never returns to 0 before the end. */
  lemma ParenInside(s: Text, i: nat)
    requires Above(s, 0, |s|) && 0 < i <= |s| + 1
    ensures Depth(ParenText(s), i) >= 1
    ensures Depth(ParenText(s), |s| + 2) == 0
  {
    var w := ParenText(s);
    assert Depth([TLPar], 1) == Depth([TLPar], 0) + 1 == 1;
    DepthInside([TLPar], s, [TRPar], i - 1);
    DepthInside([TLPar], s, [TRPar], |s|);
    assert w[|s| + 1] == TRPar;
    assert Depth(w, |s| + 2) == Depth(w, |s| + 1) + Turn(w[|s| + 1]);
    assert Depth(s, 0) == 0;
  }

  lemma ParenSealed(s: Text)
    requires Above(s, 0, |s|)
    ensures Sealed(ParenText(s)) && Strip(ParenText(s)) == Some(s)
  {
    var w := ParenText(s);
    ParenInside(s, 1);
    forall i | 0 <= i < |s| + 1
      ensures !ClosesAt(w, i)
    {
      ParenInside(s, i + 1);
    }
    forall kw, i | 0 <= i < |w|
      ensures !AtTop(w, kw, i)
    {
      if 0 < i <= |s| {
        ParenInside(s, i);
      }
    }
    assert w[|s| + 1] == TRPar && ClosesAt(w, |s| + 1);
    assert Close(w, 0) == Some(|s| + 1);
    assert w[1..|w| - 1] == s;
  }

  // ---------------------------------------------------------------------------
  // Conditionals as trees
  // ---------------------------------------------------------------------------

  /** How a text is made of conditionals: a leaf, an IF, or an IF in parentheses. */
  datatype Tree = Leaf(s: Text) | Cond(g: Text, thn: Tree, els: Tree) | Wrapped(inner: Tree)

  function Show(f: Tree): Text {
    match f
    case Leaf(s) => s
    case Cond(g, t, e) => IfText(g, Show(t), Show(e))
    case Wrapped(i) => ParenText(Show(i))
  }

  /** The tree shows exactly the conditionals of a text of `e` that stand outside its leaves. */
  ghost predicate Shows(f: Tree, e: Expr) {
    match f
    case Leaf(s) => Denotes(s, e) && Sealed(s) && !StartsIf(s) && !(Strip(s).Some? && StartsIf(Strip(s).value))
    case Cond(g, t, l) => e.Ite? && Denotes(g, e.cond) && Sealed(g) && Shows(t, e.thn) && Shows(l, e.els)
    case Wrapped(i) => i.Cond? && Shows(i, e)
  }

  predicate Unkeyed(s: Text) {
    forall k | 0 <= k < |s| :: !Keyworded(s[k])
  }

  /** Flat form: guards and leaves without keywords, and no bare conditional in a THEN position. */
  predicate FlatForm(f: Tree) {
    match f
    case Leaf(s) => Unkeyed(s)
    case Cond(g, t, e) => Unkeyed(g) && !t.Cond? && FlatForm(t) && FlatForm(e)
    case Wrapped(i) => FlatForm(i)
  }

  lemma {:induction false} ShowDenotes(f: Tree, e: Expr)
    requires Shows(f, e)
    ensures Denotes(Show(f), e)
    decreases f
  {
    match f
    case Leaf(_) =>
    case Cond(g, t, l) =>
      ShowDenotes(t, e.thn);
      ShowDenotes(l, e.els);
      IfDenotes(g, Show(t), Show(l), e.cond, e.thn, e.els);
    case Wrapped(i) =>
      ShowDenotes(i, e);
      ParenDenotes(Show(i), e, OR);
      OperandDenotes(ParenText(Show(i)), e, OR);
  }

  lemma ShowSealed(f: Tree, e: Expr)
    requires Shows(f, e) && !f.Cond?
    ensures Sealed(Show(f))
  {
    if f.Wrapped? {
      ShowDenotes(f.inner, e);
      DenotedBalanced(Show(f.inner), e);
      ParenSealed(Show(f.inner));
    }
  }

  /** A chain whose guard and THEN value are sealed is cut between them. */
  lemma SplitSealed(g: Text, t: Text, e: Text)
    requires Sealed(g) && Sealed(t)
    ensures SplitIf(IfText(g, t, e)) == Some((|g| + 1, |g| + |t| + 2))
  {
    IfCut(g, t, e);
  }

  /** What is cut is translated piece by piece. */
  lemma CutTranslates(w: Text, th: nat, el: nat)
    requires SplitIf(w) == Some((th, el))
    ensures Translate(w) == Ternary(BasicText(w[1..th]), Translate(w[th + 1..el]), Translate(w[el + 1..]))
  {
  }

  lemma TranslateSealed(g: Text, t: Text, e: Text)
    requires Sealed(g) && Sealed(t)
    ensures Translate(IfText(g, t, e)) == Ternary(BasicText(g), Translate(t), Translate(e))
  {
    SplitSealed(g, t, e);
    IfShape(g, t, e);
    CutTranslates(IfText(g, t, e), |g| + 1, |g| + |t| + 2);
  }

  lemma TranslateWrapped(f: Tree, e: Expr)
    requires f.Wrapped? && Shows(f, e)
    ensures Translate(Show(f)) == [VLPar] + Translate(Show(f.inner)) + [VRPar]
  {
    ShowDenotes(f.inner, e);
    DenotedBalanced(Show(f.inner), e);
    ParenSealed(Show(f.inner));
    assert SplitIf(Show(f)) == None;
  }

  // ---------------------------------------------------------------------------
  // What is left over
  // ---------------------------------------------------------------------------

  /** No IF, THEN or ELSE in the Verilog text. */
  predicate Clean(v: VText) {
    forall k | 0 <= k < |v| :: !v[k].VWord?
  }

  lemma BasicClean(s: Text)
    ensures Clean(BasicText(s)) <==> Unkeyed(s)
  {
    var v := BasicText(s);
    assert forall k | 0 <= k < |s| :: v[k].VWord? <==> Keyworded(s[k]);
    if Clean(v) {
      assert forall k | 0 <= k < |s| :: !v[k].VWord?;
    }
  }

  lemma CleanAppend(a: VText, b: VText)
    ensures Clean(a + b) <==> Clean(a) && Clean(b)
  {
    if Clean(a + b) {
      forall k | 0 <= k < |a|
        ensures !a[k].VWord?
      {
        assert (a + b)[k] == a[k];
      }
      forall k | 0 <= k < |b|
        ensures !b[k].VWord?
      {
        assert (a + b)[|a| + k] == b[k];
      }
    }
  }

  lemma CleanTernary(c: VText, t: VText, e: VText)
    ensures Clean(Ternary(c, t, e)) <==> Clean(c) && Clean(t) && Clean(e)
  {
    var mid, end := [VRPar, VQuery, VLPar], [VRPar, VColon, VLPar];
    CleanAppend([VLPar], c);
    CleanAppend([VLPar] + c, mid);
    CleanAppend([VLPar] + c + mid, t);
    CleanAppend([VLPar] + c + mid + t, end);
    CleanAppend([VLPar] + c + mid + t + end, e);
    CleanAppend([VLPar] + c + mid + t + end + e, [VRPar]);
  }

  /** A text starting with IF that cannot be cut leaks its keyword. */
  lemma UncutLeaks(s: Text)
    requires StartsIf(s) && SplitIf(s).None?
    ensures !Clean(Translate(s))
  {
    assert Translate(s) == BasicText(s);
    assert !Unkeyed(s);
    BasicClean(s);
  }

  /** A piece between a THEN and the first ELSE outside parentheses behind it, if it starts with IF. */
  lemma TornHeadLeaks(p: Text, v: Text, q: Text)
    requires Depth(p, |p|) == 0 && StartsIf(v)
    requires forall i | |p| <= i < |p| + |v| :: !AtTop(p + v + q, Else, i)
    ensures !Clean(Translate(v))
  {
    forall i | 0 <= i < |v|
      ensures !AtTop(v, Else, i)
    {
      TopInside(p, v, q, Else, i);
      assert !AtTop(p + v + q, Else, |p| + i);
    }
    UncutLeaks(v);
  }

  lemma ThenPosition(g: Text, t: Text, e: Text)
    requires Sealed(g)
    ensures Top(IfText(g, t, e), Then, 1) == Some(|g| + 1)
  {
    IfShape(g, t, e);
    assert Depth([TIf], 1) == Depth([TIf], 0) == 0;
    FirstAfter([TIf], g, TThen, t + ([TElse] + e), Then);
  }

  lemma ThenPiece(g: Text, t: Text, e: Text, el: nat)
    requires StartsIf(t) && |g| + 2 <= el < |IfText(g, t, e)| && IfText(g, t, e)[el].TElse?
    ensures var w := IfText(g, t, e);
      StartsIf(w[|g| + 2..el]) && w == [TIf] + g + [TThen] + w[|g| + 2..el] + w[el..]
  {
    var w := IfText(g, t, e);
    assert w[|g| + 2] == t[0];
  }

  lemma CutSplits(w: Text, th: nat, el: nat)
    requires StartsIf(w) && Top(w, Then, 1) == Some(th) && Top(w, Else, th + 1) == Some(el)
    ensures SplitIf(w) == Some((th, el))
  {
  }

  lemma TornTranslates(g: Text, t: Text, e: Text, el: nat)
    requires Sealed(g) && StartsIf(t) && Top(IfText(g, t, e), Else, |g| + 2) == Some(el)
    ensures |g| + 2 <= el < |IfText(g, t, e)| && !Clean(Translate(IfText(g, t, e)[|g| + 2..el]))
  {
    var w := IfText(g, t, e);
    ThenPiece(g, t, e, el);
    HeadDepth(g);
    TornHeadLeaks([TIf] + g + [TThen], w[|g| + 2..el], w[el..]);
  }

  /** A bare conditional in a THEN position is cut at its own ELSE, so its IF is left over. */
  lemma NestedThenLeaks(g: Text, t: Text, e: Text)
    requires Sealed(g) && StartsIf(t)
    ensures !Clean(Translate(IfText(g, t, e)))
  {
    var w := IfText(g, t, e);
    ThenPosition(g, t, e);
    match Top(w, Else, |g| + 2)
    case None => UncutLeaks(w);
    case Some(el) =>
      TornTranslates(g, t, e, el);
      CutSplits(w, |g| + 1, el);
      CutTranslates(w, |g| + 1, el);
      CleanTernary(BasicText(w[1..|g| + 1]), Translate(w[|g| + 2..el]), Translate(w[el + 1..]));
  }

  /** Nothing is left over exactly when the text has flat form. */
  lemma {:induction false} CleanIffFlat(f: Tree, e: Expr)
    requires Shows(f, e)
    ensures Clean(Translate(Show(f))) <==> FlatForm(f)
    decreases f
  {
    match f
    case Leaf(s) =>
      BasicClean(s);
    case Cond(g, t, l) =>
      if t.Cond? {
        NestedThenLeaks(g, Show(t), Show(l));
      } else {
        ShowSealed(t, e.thn);
        TranslateSealed(g, Show(t), Show(l));
        CleanTernary(BasicText(g), Translate(Show(t)), Translate(Show(l)));
        BasicClean(g);
        CleanIffFlat(t, e.thn);
        CleanIffFlat(l, e.els);
      }
    case Wrapped(i) =>
      TranslateWrapped(f, e);
      CleanIffFlat(i, e);
      CleanAppend([VLPar], Translate(Show(i)));
      CleanAppend([VLPar] + Translate(Show(i)), [VRPar]);
  }

  // ---------------------------------------------------------------------------
  // What Verilog reads
  // ---------------------------------------------------------------------------

  /** `TRUE` and `FALSE` have no Verilog counterpart. */
  predicate Truthless(s: Text) {
    forall k | 0 <= k < |s| :: !s[k].TTrue? && !s[k].TFalse?
  }

  predicate NoTruthWords(f: Tree) {
    match f
    case Leaf(s) => Truthless(s)
    case Cond(g, t, e) => Truthless(g) && NoTruthWords(t) && NoTruthWords(e)
    case Wrapped(i) => NoTruthWords(i)
  }

  /** `w` shows `( s )` from `i` on, in front of a token no operator starts with. */
  predicate VParenAt(w: VText, i: nat, s: VText) {
    && i + |s| + 1 < |w|
    && w[i] == VLPar && w[i + 1..i + 1 + |s|] == s && w[i + 1 + |s|] == VRPar
    && (i + |s| + 2 < |w| ==> VStops(w[i + |s| + 2]) || w[i + |s| + 2].VQuery?)
  }

  /** A parenthesised piece is an operand at every level. */
  lemma VParenReads(w: VText, i: nat, s: VText, e: Expr)
    requires VDenotes(s, e) && VParenAt(w, i, s)
    ensures VParseLevel(w, i, VOR) == Good(e, i + |s| + 2)
  {
    VEmbedded(VRExpr, s, w, i + 1, 0);
    VOperand(w, i, e, i + |s| + 2, VOR);
  }

  lemma {:induction false} VOperand(w: VText, i: nat, e: Expr, j: nat, lvl: nat)
    requires lvl <= VUNARY && i < |w| && VUnAt(w[i]).None? && VParsePrimary(w, i) == Good(e, j)
    requires j < |w| ==> VStops(w[j]) || w[j].VQuery?
    ensures VParseLevel(w, i, lvl) == Good(e, j)
    decreases VUNARY - lvl
  {
    if lvl < VUNARY {
      VOperand(w, i, e, j, lvl + 1);
    }
  }

  lemma VParenDenotes(s: VText, e: Expr)
    requires VDenotes(s, e)
    ensures VDenotes([VLPar] + s + [VRPar], e)
  {
    VParenReads([VLPar] + s + [VRPar], 0, s, e);
  }

  lemma TernaryShape(c: VText, t: VText, e: VText)
    ensures var w, i, j := Ternary(c, t, e), |c| + 3, |c| + |t| + 6;
      && VParenAt(w, 0, c) && w[i - 1] == VQuery
      && VParenAt(w, i, t) && w[j - 1] == VColon
      && VParenAt(w, j, e) && |w| == j + |e| + 2
  {
  }

  /** A parenthesised piece that no `?` follows is a whole expression. */
  lemma VParenExpr(w: VText, i: nat, s: VText, e: Expr)
    requires VDenotes(s, e) && VParenAt(w, i, s) && !VAt(w, i + |s| + 2, VQuery)
    ensures VParseExpr(w, i) == Good(e, i + |s| + 2)
  {
    VParenReads(w, i, s, e);
  }

  /** `(c) ? (t) : (e)` */
  lemma TernaryDenotes(c: VText, t: VText, e: VText, ec: Expr, et: Expr, ee: Expr)
    requires VDenotes(c, ec) && VDenotes(t, et) && VDenotes(e, ee)
    ensures VDenotes(Ternary(c, t, e), Ite(ec, et, ee))
  {
    TernaryShape(c, t, e);
    TernaryReads(Ternary(c, t, e), c, t, e, ec, et, ee);
  }

  lemma TernaryReads(w: VText, c: VText, t: VText, e: VText, ec: Expr, et: Expr, ee: Expr)
    requires VDenotes(c, ec) && VDenotes(t, et) && VDenotes(e, ee)
    requires |w| == |c| + |t| + |e| + 8
    requires VParenAt(w, 0, c) && w[|c| + 2] == VQuery
    requires VParenAt(w, |c| + 3, t) && w[|c| + |t| + 5] == VColon
    requires VParenAt(w, |c| + |t| + 6, e)
    ensures VDenotes(w, Ite(ec, et, ee))
  {
    VParenReads(w, 0, c, ec);
    VParenExpr(w, |c| + 3, t, et);
    VParenExpr(w, |c| + |t| + 6, e, ee);
  }

  /** On flat form the translation keeps the meaning: Verilog reads the very same expression. */
  lemma {:induction false} TranslateDenotes(f: Tree, e: Expr)
    requires Shows(f, e) && FlatForm(f) && NoTruthWords(f)
    ensures VDenotes(Translate(Show(f)), e)
    decreases f
  {
    match f
    case Leaf(s) =>
      assert AllTranslatable(s);
      BasicDenotes(s, e);
    case Cond(g, t, l) =>
      ShowSealed(t, e.thn);
      TranslateSealed(g, Show(t), Show(l));
      assert AllTranslatable(g);
      BasicDenotes(g, e.cond);
      TranslateDenotes(t, e.thn);
      TranslateDenotes(l, e.els);
      TernaryDenotes(BasicText(g), Translate(Show(t)), Translate(Show(l)), e.cond, e.thn, e.els);
    case Wrapped(i) =>
      TranslateWrapped(f, e);
      TranslateDenotes(i, e);
      VParenDenotes(Translate(Show(i)), e);
  }

  // ---------------------------------------------------------------------------
  // The chains the bridge builds
  // ---------------------------------------------------------------------------

  /** A conditional in a THEN position is put in parentheses. */
  function Guarded(v: Text): Text {
    if StartsIf(v) then ParenText(v) else v
  }

  function NestedIfText(clauses: seq<Clause>, dflt: Text): Text {
    if clauses == [] then dflt
    else IfText(clauses[0].0, Guarded(clauses[0].1), NestedIfText(clauses[1..], dflt))
  }

  /** `_nested_if` on texts */
  method NestedIf(clauses: seq<Clause>, dflt: Text) returns (out: Text)
    ensures out == NestedIfText(clauses, dflt)
  {
    out := dflt;
    var k := |clauses|;
    while k > 0
      invariant 0 <= k <= |clauses|
      invariant out == NestedIfText(clauses[k..], dflt)
    {
      k := k - 1;
      assert clauses[k..][1..] == clauses[k + 1..];
      var (guard, value) := clauses[k];
      var thenVal := if StartsIf(value) then ParenText(value) else value;
      out := IfText(guard, thenVal, out);
    }
    assert clauses[0..] == clauses;
  }

  function ChainTree(guards: seq<Text>, values: seq<Tree>, dflt: Tree): Tree
    requires |guards| == |values|
  {
    if guards == [] then dflt
    else Cond(guards[0], if values[0].Cond? then Wrapped(values[0]) else values[0], ChainTree(guards[1..], values[1..], dflt))
  }

  function ShownClauses(guards: seq<Text>, values: seq<Tree>): (r: seq<Clause>)
    requires |guards| == |values|
    ensures |r| == |guards|
  {
    seq(|guards|, k requires 0 <= k < |guards| => (guards[k], Show(values[k])))
  }

  /** Guards and values of a chain, with the expressions they show. */
  ghost predicate ChainParts(guards: seq<Text>, values: seq<Tree>, es: seq<(Expr, Expr)>) {
    && |guards| == |values| == |es|
    && forall k | 0 <= k < |guards| ::
         Denotes(guards[k], es[k].0) && Unkeyed(guards[k]) && Shows(values[k], es[k].1) && FlatForm(values[k])
  }

  lemma ShowStartsIf(f: Tree, e: Expr)
    requires Shows(f, e)
    ensures StartsIf(Show(f)) <==> f.Cond?
  {
  }

  lemma UnkeyedSealed(g: Text, e: Expr)
    requires Denotes(g, e) && Unkeyed(g)
    ensures Sealed(g)
  {
    PlainIsSealed(g, e);
  }

  /** The bridge's chain is the text of a tree in flat form, and means the chain of its parts. */
  lemma {:induction false} NestedIfFlat(guards: seq<Text>, values: seq<Tree>, dflt: Tree, es: seq<(Expr, Expr)>, ed: Expr)
    requires ChainParts(guards, values, es) && Shows(dflt, ed) && FlatForm(dflt)
    ensures var f := ChainTree(guards, values, dflt);
      Show(f) == NestedIfText(ShownClauses(guards, values), Show(dflt)) && Shows(f, Fold(es, ed)) && FlatForm(f)
    decreases |guards|
  {
    if guards != [] {
      NestedIfFlat(guards[1..], values[1..], dflt, es[1..], ed);
      var clauses := ShownClauses(guards, values);
      assert clauses[1..] == ShownClauses(guards[1..], values[1..]);
      ShowStartsIf(values[0], es[0].1);
      UnkeyedSealed(guards[0], es[0].0);
    }
  }

  /** Composition then translation: no keyword is left over, and Verilog reads the chain of the parts. */
  lemma NestedIfTranslates(guards: seq<Text>, values: seq<Tree>, dflt: Tree, es: seq<(Expr, Expr)>, ed: Expr)
    requires ChainParts(guards, values, es) && Shows(dflt, ed) && FlatForm(dflt)
    ensures var v := Translate(NestedIfText(ShownClauses(guards, values), Show(dflt)));
      Clean(v) && (NoTruthWords(ChainTree(guards, values, dflt)) ==> VDenotes(v, Fold(es, ed)))
  {
    var f := ChainTree(guards, values, dflt);
    NestedIfFlat(guards, values, dflt, es, ed);
    CleanIffFlat(f, Fold(es, ed));
    if NoTruthWords(f) {
      TranslateDenotes(f, Fold(es, ed));
    }
  }

  // ---------------------------------------------------------------------------
  // The chains the scheduler builds
  // ---------------------------------------------------------------------------

  lemma LeafShows(s: Text, e: Expr)
    requires Denotes(s, e) && Unkeyed(s)
    ensures Shows(Leaf(s), e) && FlatForm(Leaf(s))
  {
    PlainIsSealed(s, e);
    if Strip(s).Some? && Strip(s).value != [] {
      assert Strip(s).value[0] == s[1];
    }
  }

  /** An IF chain of leaves, as joined, is a tree of leaves. */
  function LeafTree(pairs: seq<Clause>, dflt: Text): Tree {
    if pairs == [] then Leaf(dflt) else Cond(pairs[0].0, Leaf(pairs[0].1), LeafTree(pairs[1..], dflt))
  }

  predicate LeafChain(pairs: seq<Clause>, dflt: Text) {
    Unkeyed(dflt) && forall k | 0 <= k < |pairs| :: Unkeyed(pairs[k].1)
  }

  ghost predicate SealedGuards(pairs: seq<Clause>) {
    forall k | 0 <= k < |pairs| :: Sealed(pairs[k].0)
  }

  predicate UnkeyedGuards(pairs: seq<Clause>) {
    forall k | 0 <= k < |pairs| :: Unkeyed(pairs[k].0)
  }

  lemma {:induction false} LeafTreeShows(pairs: seq<Clause>, dflt: Text, es: seq<(Expr, Expr)>, ed: Expr)
    requires ClausesDenote(pairs, es) && Denotes(dflt, ed) && LeafChain(pairs, dflt) && SealedGuards(pairs)
    ensures var f := LeafTree(pairs, dflt);
      && Show(f) == JoinChain(pairs, dflt) && Shows(f, Fold(es, ed))
      && (FlatForm(f) <==> UnkeyedGuards(pairs))
    decreases |pairs|
  {
    LeafShows(dflt, ed);
    if pairs != [] {
      LeafTreeShows(pairs[1..], dflt, es[1..], ed);
      LeafShows(pairs[0].1, es[0].1);
      assert UnkeyedGuards(pairs) <==> Unkeyed(pairs[0].0) && UnkeyedGuards(pairs[1..]) by {
        assert forall k | 0 < k < |pairs| :: pairs[k] == pairs[1..][k - 1];
        if UnkeyedGuards(pairs) {
          assert forall k | 0 <= k < |pairs[1..]| :: pairs[1..][k] == pairs[k + 1];
        }
      }
    }
  }

  /** A chain with IF-free values leaves no keyword exactly when its guards are IF-free too. */
  lemma JoinedChainClean(pairs: seq<Clause>, dflt: Text, es: seq<(Expr, Expr)>, ed: Expr)
    requires ClausesDenote(pairs, es) && Denotes(dflt, ed) && LeafChain(pairs, dflt) && SealedGuards(pairs)
    ensures Clean(Translate(JoinChain(pairs, dflt))) <==> UnkeyedGuards(pairs)
    ensures UnkeyedGuards(pairs) && NoTruthWords(LeafTree(pairs, dflt)) ==>
      VDenotes(Translate(JoinChain(pairs, dflt)), Fold(es, ed))
  {
    LeafTreeShows(pairs, dflt, es, ed);
    CleanIffFlat(LeafTree(pairs, dflt), Fold(es, ed));
    if UnkeyedGuards(pairs) && NoTruthWords(LeafTree(pairs, dflt)) {
      TranslateDenotes(LeafTree(pairs, dflt), Fold(es, ed));
    }
  }

  lemma DenotedSealedInParens(p: Text, s: Text, e: Expr)
    requires Denotes(s, e) && Unkeyed(p) && Depth(p, |p|) == 0
    ensures Sealed(p + ParenText(s))
  {
    DenotedBalanced(s, e);
    ParenSealed(s);
    var w := p + ParenText(s) + [];
    assert w == p + ParenText(s);
    forall kw, i | 0 <= i < |w|
      ensures !AtTop(w, kw, i)
    {
      if i < |p| {
        assert w[i] == p[i];
      } else {
        TopInside(p, ParenText(s), [], kw, i - |p|);
      }
    }
    DepthInside(p, ParenText(s), [], |s| + 2);
  }

  lemma BusyAndSealed(m: Machine, s: Text, e: Expr)
    requires Denotes(s, e)
    ensures Sealed(BusyAnd(m, s)) && (Unkeyed(BusyAnd(m, s)) <==> Unkeyed(s))
  {
    var p := EqText(m.state, 1) + [TAndWord];
    EqTextDenotes(m.state, 1);
    assert Unkeyed(EqText(m.state, 1));
    PlainIsSealed(EqText(m.state, 1), StateIs(m, 1));
    DepthPrefix(EqText(m.state, 1), p, 3);
    assert Depth(p, 4) == Depth(p, 3) + Turn(p[3]);
    assert BusyAnd(m, s) == p + ParenText(s);
    DenotedSealedInParens(p, s, e);
    UnkeyedAround(p + [TLPar], s, [TRPar]);
    assert BusyAnd(m, s) == p + [TLPar] + s + [TRPar];
  }

  lemma UnkeyedAround(p: Text, s: Text, q: Text)
    requires Unkeyed(p) && Unkeyed(q)
    ensures Unkeyed(p + s + q) <==> Unkeyed(s)
  {
    var w := p + s + q;
    if Unkeyed(w) {
      forall k | 0 <= k < |s|
        ensures !Keyworded(s[k])
      {
        assert w[|p| + k] == s[k];
      }
    }
  }

  /**
    The control chain compiles exactly when the guard one body step ahead is IF-free. It is not
    when the guard reads a register whose body is conditional.
    */
  lemma ControlChainClean(m: Machine, stay: Text)
    requires Denotes(stay, Stay(m))
    ensures Clean(Translate(StateNextText(m, stay))) <==> Unkeyed(stay)
  {
    ControlParts(m, stay);
    ControlDenotes(m, stay);
    NumberText(0);
    JoinedChainClean(ControlClauses(m, stay), [TNum(0)], ControlPairs(m), Const(0));
    ControlKeys(m, stay);
  }

  lemma ControlKeys(m: Machine, stay: Text)
    requires Denotes(stay, Stay(m))
    ensures UnkeyedGuards(ControlClauses(m, stay)) <==> Unkeyed(stay)
  {
    ControlParts(m, stay);
    BusyAndSealed(m, stay, Stay(m));
    var pairs := ControlClauses(m, stay);
    assert pairs[1].0 == BusyAnd(m, stay);
  }

  lemma LoadUnkeyed(m: Machine)
    ensures Unkeyed(LoadText(m)) && Sealed(LoadText(m)) && Denotes(LoadText(m), Load(m))
  {
    LoadDenotes(m);
    PlainIsSealed(LoadText(m), Load(m));
  }

  lemma EqUnkeyed(x: Name, n: nat)
    ensures Unkeyed(EqText(x, n)) && Sealed(EqText(x, n)) && Denotes(EqText(x, n), Bin(Eq, Var(x), Const(n)))
  {
    EqTextDenotes(x, n);
    PlainIsSealed(EqText(x, n), Bin(Eq, Var(x), Const(n)));
  }

  lemma ControlParts(m: Machine, stay: Text)
    requires Denotes(stay, Stay(m))
    ensures var pairs := ControlClauses(m, stay);
      && LeafChain(pairs, [TNum(0)]) && SealedGuards(pairs)
      && Unkeyed(pairs[0].0) && Unkeyed(pairs[2].0) && Unkeyed(pairs[3].0)
  {
    LoadUnkeyed(m);
    EqUnkeyed(m.state, 1);
    EqUnkeyed(m.state, 2);
    BusyAndSealed(m, stay, Stay(m));
    assert Unkeyed([TNum(0)]) && Unkeyed([TNum(1)]) && Unkeyed([TNum(2)]);
  }

  /** A token whose image has no keyword. */
  predicate PlainImage(t: Token, m: map<Name, Text>) {
    !Keyworded(t) && (t.TId? && t.x in m ==> Unkeyed(m[t.x]))
  }

  /** Substituted text is IF-free exactly when every token is and every text put in is. */
  lemma {:induction false} SubstUnkeyed(s: Text, m: map<Name, Text>)
    ensures Unkeyed(SubstText(s, m)) <==> forall k | 0 <= k < |s| :: PlainImage(s[k], m)
    decreases |s|
  {
    if s != [] {
      var n := |s| - 1;
      SubstUnkeyed(s[..n], m);
      ImageUnkeyed(s[n], m);
      UnkeyedAppend(SubstText(s[..n], m), Image(s[n], m));
      assert (forall k | 0 <= k < |s| :: PlainImage(s[k], m)) <==>
             (forall k | 0 <= k < n :: PlainImage(s[..n][k], m)) && PlainImage(s[n], m) by {
        assert forall k | 0 <= k < n :: s[..n][k] == s[k];
      }
    }
  }

  lemma ImageUnkeyed(t: Token, m: map<Name, Text>)
    ensures Unkeyed(Image(t, m)) <==> PlainImage(t, m)
  {
    if t.TId? && t.x in m {
      UnkeyedAround([TLPar], m[t.x], [TRPar]);
    } else {
      assert Image(t, m)[0] == t;
    }
  }

  lemma UnkeyedAppend(a: Text, b: Text)
    ensures Unkeyed(a + b) <==> Unkeyed(a) && Unkeyed(b)
  {
    if Unkeyed(a + b) {
      assert forall k | 0 <= k < |a| :: a[k] == (a + b)[k];
      forall k | 0 <= k < |b|
        ensures !Keyworded(b[k])
      {
        assert (a + b)[|a| + k] == b[k];
      }
    }
  }

  /** A register chain whose pieces are IF-free compiles to Verilog that reads the circuit's next state. */
  lemma RegisterChainTranslates(m: Machine, r: LoopReg, init: Text, pairs: seq<Clause>, dflt: Text)
    requires Denotes(init, r.init) && ClausesDenote(pairs, r.pairs) && Denotes(dflt, r.dflt)
    requires Unkeyed(init) && Unkeyed(dflt) && UnkeyedGuards(pairs) && LeafChain(pairs, dflt)
    ensures var segs := Segments(m, init, pairs, dflt);
      && Clean(Translate(RegNextText(m, r.name, init, pairs, dflt)))
      && (NoTruthWords(LeafTree(segs, [TId(r.name)])) ==>
           VDenotes(Translate(RegNextText(m, r.name, init, pairs, dflt)), RegNext(m, r)))
  {
    var segs := Segments(m, init, pairs, dflt);
    var busy := BusyPairs(m, r.pairs) + [(StateIs(m, 1), r.dflt)];
    var es := [(Load(m), r.init)] + busy;
    SegmentsParts(m, r, init, pairs, dflt);
    NameText(r.name);
    JoinedChainClean(segs, [TId(r.name)], es, Var(r.name));
    BusyChainIsFold(m, r.pairs, r.dflt, Var(r.name));
    assert es[1..] == busy;
  }

  /** The expressions of a register chain's segments. */
  function SegmentPairs(m: Machine, r: LoopReg): seq<(Expr, Expr)> {
    [(Load(m), r.init)] + (BusyPairs(m, r.pairs) + [(StateIs(m, 1), r.dflt)])
  }

  lemma SegmentPart(m: Machine, r: LoopReg, init: Text, pairs: seq<Clause>, dflt: Text, k: nat)
    requires Denotes(init, r.init) && ClausesDenote(pairs, r.pairs) && Denotes(dflt, r.dflt)
    requires Unkeyed(init) && Unkeyed(dflt) && UnkeyedGuards(pairs) && LeafChain(pairs, dflt) && k < |pairs| + 2
    ensures var seg, e := Segments(m, init, pairs, dflt)[k], SegmentPairs(m, r)[k];
      Denotes(seg.0, e.0) && Denotes(seg.1, e.1) && Unkeyed(seg.0) && Sealed(seg.0) && Unkeyed(seg.1)
  {
    if k == 0 {
      LoadUnkeyed(m);
    } else if k <= |pairs| {
      BusyAndDenotes(m, pairs[k - 1].0, r.pairs[k - 1].0);
      BusyAndSealed(m, pairs[k - 1].0, r.pairs[k - 1].0);
    } else {
      EqUnkeyed(m.state, 1);
    }
  }

  lemma SegmentsParts(m: Machine, r: LoopReg, init: Text, pairs: seq<Clause>, dflt: Text)
    requires Denotes(init, r.init) && ClausesDenote(pairs, r.pairs) && Denotes(dflt, r.dflt)
    requires Unkeyed(init) && Unkeyed(dflt) && UnkeyedGuards(pairs) && LeafChain(pairs, dflt)
    ensures var segs := Segments(m, init, pairs, dflt);
      && ClausesDenote(segs, SegmentPairs(m, r))
      && LeafChain(segs, [TId(r.name)]) && SealedGuards(segs) && UnkeyedGuards(segs)
  {
    var segs, es := Segments(m, init, pairs, dflt), SegmentPairs(m, r);
    forall k | 0 <= k < |segs|
      ensures Denotes(segs[k].0, es[k].0) && Denotes(segs[k].1, es[k].1)
      ensures Unkeyed(segs[k].0) && Sealed(segs[k].0) && Unkeyed(segs[k].1)
    {
      SegmentPart(m, r, init, pairs, dflt, k);
    }
  }
}
