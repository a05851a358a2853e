/**
  The rules build expressions by splicing text. Proved on tokens: the spliced text is read back
  as the intended expression, because THEN, ELSE and closing brackets stop every piece before them.
  */
module Splicing {
  import opened Expressions
  import opened Grammar

  function IfText(g: Text, t: Text, e: Text): Text {
    [TIf] + g + [TThen] + t + [TElse] + e
  }

  function ParenText(s: Text): Text {
    [TLPar] + s + [TRPar]
  }

  /** `s` is exactly the text of `e` at a precedence level. */
  predicate DenotesAt(lvl: nat, s: Text, e: Expr)
    requires lvl <= UNARY
  {
    ParseLevel(true, s, 0, lvl) == Good(e, |s|)
  }

  /** A piece is read the same with text before it and a token it cannot take behind it. */
  lemma Embedded(g: Rule, p: Text, s: Text, q: Text, e: Expr)
    requires Legal(g) && Run(g, true, s, 0) == Good(e, |s|)
    requires q == [] || Breaks(LevelOf(g), q[0])
    ensures Run(g, true, p + (s + q), |p|) == Good(e, |p| + |s|)
  {
    ParseExtends(g, s, s + q, 0);
    ParseShifts(g, p, s + q, 0);
  }

  /** `IF g THEN t ELSE e` */
  lemma IfDenotes(g: Text, t: Text, e: Text, eg: Expr, et: Expr, ee: Expr)
    requires Denotes(g, eg) && Denotes(t, et) && Denotes(e, ee)
    ensures Denotes(IfText(g, t, e), Ite(eg, et, ee))
  {
    var w := IfText(g, t, e);
    assert w == [TIf] + (g + ([TThen] + t + [TElse] + e));
    Embedded(RExpr, [TIf], g, [TThen] + t + [TElse] + e, eg);
    assert w == ([TIf] + g + [TThen]) + (t + ([TElse] + e));
    Embedded(RExpr, [TIf] + g + [TThen], t, [TElse] + e, et);
    assert w == ([TIf] + g + [TThen] + t + [TElse]) + (e + []);
    Embedded(RExpr, [TIf] + g + [TThen] + t + [TElse], e, [], ee);
  }

  /** A whole primary is the whole text at every level. */
  lemma {:induction false} PrimaryDenotes(s: Text, e: Expr, lvl: nat)
    requires lvl <= UNARY && s != [] && UnAt(s[0]).None? && ParsePrimary(true, s, 0) == Good(e, |s|)
    ensures DenotesAt(lvl, s, e)
    decreases UNARY - lvl
  {
    if lvl < UNARY {
      PrimaryDenotes(s, e, lvl + 1);
    }
  }

  lemma {:induction false} LevelDenotes(s: Text, e: Expr, lvl: nat, at: nat)
    requires lvl <= at <= UNARY && DenotesAt(at, s, e)
    ensures DenotesAt(lvl, s, e)
    decreases at - lvl
  {
    if lvl < at {
      LevelDenotes(s, e, lvl + 1, at);
    }
  }

  /** No operand starts with IF. */
  lemma {:induction false} LevelStart(s: Text, i: nat, lvl: nat)
    requires lvl <= UNARY && i <= |s| && ParseLevel(true, s, i, lvl).Good?
    ensures i < |s| && !s[i].TIf?
    decreases UNARY - lvl
  {
    if lvl < UNARY {
      LevelStart(s, i, lvl + 1);
    } else {
      assert ParseUnary(true, s, i).Good?;
      assert i < |s| && s[i].TIf? ==> ParsePrimary(true, s, i).Bad?;
    }
  }

  lemma OperandDenotes(s: Text, e: Expr, lvl: nat)
    requires lvl <= UNARY && DenotesAt(lvl, s, e)
    ensures Denotes(s, e)
  {
    LevelDenotes(s, e, OR, lvl);
    LevelStart(s, 0, OR);
  }

  /** `(e)` is an operand. */
  lemma ParenDenotes(s: Text, e: Expr, lvl: nat)
    requires lvl <= UNARY && Denotes(s, e)
    ensures DenotesAt(lvl, ParenText(s), e)
  {
    var w := ParenText(s);
    assert w == [TLPar] + (s + [TRPar]);
    Embedded(RExpr, [TLPar], s, [TRPar], e);
    PrimaryDenotes(w, e, lvl);
  }

  function IndexText(x: Name, s: Text): Text {
    [TId(x), TLBrk] + s + [TRBrk]
  }

  /** `x[e]` */
  lemma IndexDenotes(x: Name, s: Text, e: Expr)
    requires Denotes(s, e)
    ensures Denotes(IndexText(x, s), Index(x, e))
  {
    var w := IndexText(x, s);
    assert w == [TId(x), TLBrk] + (s + [TRBrk]);
    Embedded(RExpr, [TId(x), TLBrk], s, [TRBrk], e);
    assert w[|s| + 2] == TRBrk;
    PrimaryDenotes(w, Index(x, e), OR);
    OperandDenotes(w, Index(x, e), OR);
  }

  lemma NameDenotes(x: Name, lvl: nat)
    requires lvl <= UNARY
    ensures DenotesAt(lvl, [TId(x)], Var(x))
  {
    PrimaryDenotes([TId(x)], Var(x), lvl);
  }

  lemma NumberDenotes(n: nat, lvl: nat)
    requires lvl <= UNARY
    ensures DenotesAt(lvl, [TNum(n)], Const(n))
  {
    PrimaryDenotes([TNum(n)], Const(n), lvl);
  }

  lemma LeftReads(lvl: nat, a: Text, t: Token, b: Text, ea: Expr)
    requires lvl < UNARY && OpAt(lvl, t).Some? && DenotesAt(lvl + 1, a, ea)
    ensures ParseLevel(true, a + [t] + b, 0, lvl + 1) == Good(ea, |a|)
  {
    assert a + [t] + b == [] + (a + ([t] + b));
    Embedded(RLevel(lvl + 1), [], a, [t] + b, ea);
  }

  lemma RightReads(lvl: nat, p: Text, b: Text, eb: Expr)
    requires lvl < UNARY && DenotesAt(lvl + 1, b, eb)
    ensures ParseLevel(true, p + b, |p|, lvl + 1) == Good(eb, |p + b|)
  {
    assert p + b == p + (b + []);
    Embedded(RLevel(lvl + 1), p, b, [], eb);
  }

  /** Two operands around an operator, where nothing follows. */
  lemma BinReads(lvl: nat, w: Text, k: nat, ea: Expr, eb: Expr)
    requires lvl < UNARY && k < |w| && OpAt(lvl, w[k]).Some?
    requires ParseLevel(true, w, 0, lvl + 1) == Good(ea, k) && ParseLevel(true, w, k + 1, lvl + 1) == Good(eb, |w|)
    ensures DenotesAt(lvl, w, Bin(OpAt(lvl, w[k]).value, ea, eb))
  {
    var e := Bin(OpAt(lvl, w[k]).value, ea, eb);
    assert lvl != CMP ==> ParseRest(true, w, |w|, lvl, e) == Good(e, |w|);
    assert ParseRest(true, w, k, lvl, ea) == Good(e, |w|);
  }

  /** `a op b` */
  lemma BinDenotes(lvl: nat, a: Text, t: Token, b: Text, ea: Expr, eb: Expr)
    requires lvl < UNARY && OpAt(lvl, t).Some?
    requires DenotesAt(lvl + 1, a, ea) && DenotesAt(lvl + 1, b, eb)
    ensures DenotesAt(lvl, a + [t] + b, Bin(OpAt(lvl, t).value, ea, eb))
  {
    LeftReads(lvl, a, t, b, ea);
    RightReads(lvl, a + [t], b, eb);
    assert (a + [t] + b)[|a|] == t;
    BinReads(lvl, a + [t] + b, |a|, ea, eb);
  }

  // ---------------------------------------------------------------------------
  // Substitution of parenthesised texts for names
  // ---------------------------------------------------------------------------

  function Image(t: Token, m: map<Name, Text>): Text {
    if t.TId? && t.x in m then ParenText(m[t.x]) else [t]
  }

  /** `_subst`: every name of `m` becomes its text in parentheses. */
  function SubstText(s: Text, m: map<Name, Text>): Text {
    if s == [] then [] else SubstText(s[..|s| - 1], m) + Image(s[|s| - 1], m)
  }

  /** Where the image of the `i`-th token starts. */
  function Place(s: Text, m: map<Name, Text>, i: nat): nat
    requires i <= |s|
  {
    |SubstText(s[..i], m)|
  }

  lemma {:induction false} SubstSplits(s: Text, m: map<Name, Text>, i: nat)
    requires i <= |s|
    ensures SubstText(s[..i], m) <= SubstText(s, m)
    decreases |s|
  {
    if i == |s| {
      assert s[..i] == s;
    } else {
      SubstSplits(s[..|s| - 1], m, i);
      assert s[..|s| - 1][..i] == s[..i];
    }
  }

  lemma SubstNext(s: Text, m: map<Name, Text>, i: nat)
    requires i < |s|
    ensures SubstText(s[..i + 1], m) == SubstText(s[..i], m) + Image(s[i], m)
  {
    assert s[..i + 1][..i] == s[..i];
  }

  /** Every token's image stands at its place. */
  lemma ImageAt(s: Text, m: map<Name, Text>, i: nat)
    requires i < |s|
    ensures Place(s, m, i + 1) == Place(s, m, i) + |Image(s[i], m)| <= |SubstText(s, m)|
    ensures SubstText(s, m)[Place(s, m, i)..Place(s, m, i + 1)] == Image(s[i], m)
  {
    SubstSplits(s, m, i + 1);
    SubstNext(s, m, i);
    PieceOf(SubstText(s, m), SubstText(s[..i], m), Image(s[i], m));
  }

  lemma PieceOf(w: Text, a: Text, b: Text)
    requires a + b <= w
    ensures w[|a|..|a| + |b|] == b
  {
  }

  lemma PlaceEnd(s: Text, m: map<Name, Text>)
    ensures Place(s, m, |s|) == |SubstText(s, m)|
  {
    assert s[..|s|] == s;
  }

  ghost predicate TextsDenote(m: map<Name, Text>, me: map<Name, Expr>) {
    m.Keys == me.Keys && forall x | x in m :: Denotes(m[x], me[x])
  }

  predicate Replaced(t: Token, m: map<Name, Expr>) {
    t.TId? && t.x in m
  }

  /** Token `i` of `s` stands in `w` at its place: itself, or an operand read as what it was replaced by. */
  ghost predicate TokenAligned(s: Text, me: map<Name, Expr>, w: Text, place: seq<nat>, i: nat)
    requires |place| == |s| + 1 && i < |s|
  {
    && place[i] < |w|
    && (if Replaced(s[i], me)
        then w[place[i]] == TLPar && ParsePrimary(true, w, place[i]) == Good(me[s[i].x], place[i + 1])
        else w[place[i]] == s[i] && place[i + 1] == place[i] + 1)
  }

  ghost predicate Aligned(s: Text, me: map<Name, Expr>, w: Text, place: seq<nat>) {
    && |place| == |s| + 1 && place[|s|] == |w|
    && forall i | 0 <= i < |s| :: TokenAligned(s, me, w, place, i)
  }

  /** The substituted name is read as the expression it stands for. */
  lemma ParenReads(p: Text, body: Text, q: Text, e: Expr)
    requires Denotes(body, e)
    ensures ParsePrimary(true, p + ParenText(body) + q, |p|) == Good(e, |p| + |body| + 2)
  {
    var w := p + ParenText(body) + q;
    assert w == (p + [TLPar]) + (body + ([TRPar] + q));
    Embedded(RExpr, p + [TLPar], body, [TRPar] + q, e);
  }

  lemma ImageReads(p: Text, t: Token, m: map<Name, Text>, me: map<Name, Expr>, q: Text)
    requires TextsDenote(m, me)
    ensures var w := p + Image(t, m) + q;
      && |p| < |w|
      && (if Replaced(t, me)
          then w[|p|] == TLPar && ParsePrimary(true, w, |p|) == Good(me[t.x], |p| + |Image(t, m)|)
          else w[|p|] == t && |Image(t, m)| == 1)
  {
    if Replaced(t, me) {
      ParenReads(p, m[t.x], q, me[t.x]);
    }
  }

  lemma SubstTokenAligned(s: Text, m: map<Name, Text>, me: map<Name, Expr>, place: seq<nat>, i: nat)
    requires TextsDenote(m, me) && i < |s|
    requires |place| == |s| + 1 && forall k | 0 <= k <= |s| :: place[k] == Place(s, m, k)
    ensures TokenAligned(s, me, SubstText(s, m), place, i)
  {
    var w, k, k' := SubstText(s, m), place[i], place[i + 1];
    ImageAt(s, m, i);
    Around(w, k, k');
    PieceAligned(s, m, me, w, place, i);
  }

  lemma PieceAligned(s: Text, m: map<Name, Text>, me: map<Name, Expr>, w: Text, place: seq<nat>, i: nat)
    requires TextsDenote(m, me) && i < |s| && |place| == |s| + 1 && place[i] <= place[i + 1] <= |w|
    requires place[i + 1] == place[i] + |Image(s[i], m)| && w == w[..place[i]] + Image(s[i], m) + w[place[i + 1]..]
    ensures TokenAligned(s, me, w, place, i)
  {
    ImageReads(w[..place[i]], s[i], m, me, w[place[i + 1]..]);
  }

  lemma Around(w: Text, k: nat, k': nat)
    requires k <= k' <= |w|
    ensures w == w[..k] + w[k..k'] + w[k'..]
  {
  }

  lemma SubstAligned(s: Text, m: map<Name, Text>, me: map<Name, Expr>) returns (place: seq<nat>)
    requires TextsDenote(m, me)
    ensures Aligned(s, me, SubstText(s, m), place) && place[0] == 0
  {
    place := seq(|s| + 1, i requires 0 <= i <= |s| => Place(s, m, i));
    PlaceEnd(s, m);
    assert s[..0] == [];
    forall i | 0 <= i < |s|
      ensures TokenAligned(s, me, SubstText(s, m), place, i)
    {
      SubstTokenAligned(s, m, me, place, i);
    }
  }

  /** What a position shows is the same before and after, except that a replaced name shows `(`. */
  lemma ShownAt(s: Text, me: map<Name, Expr>, w: Text, place: seq<nat>, i: nat)
    requires Aligned(s, me, w, place) && i <= |s|
    ensures place[i] <= |w| && (place[i] == |w| <==> i == |s|)
    ensures i < |s| ==> w[place[i]] == if Replaced(s[i], me) then TLPar else s[i]
    ensures i < |s| && !Replaced(s[i], me) ==> place[i + 1] == place[i] + 1
  {
    if i < |s| {
      assert TokenAligned(s, me, w, place, i);
    }
  }

  /** A rule whose left operand has been substituted. */
  function SubstRule(g: Rule, me: map<Name, Expr>): Rule {
    match g case RRest(l, a) => RRest(l, Subst(a, me)) case _ => g
  }

  /** Substituting tokens and reading is reading and substituting expressions. */
  lemma {:induction false} SubstReads(g: Rule, s: Text, me: map<Name, Expr>, w: Text, place: seq<nat>, i: nat)
    requires Legal(g) && i <= |s| && Aligned(s, me, w, place) && place[i] <= |w|
    requires Run(g, true, s, i).Good? && Bases(Run(g, true, s, i).e) !! me.Keys
    ensures var r := Run(g, true, s, i);
      Run(SubstRule(g, me), true, w, place[i]) == Good(Subst(r.e, me), place[r.next])
    decreases |s| - i, Rank(g)
  {
    ShownAt(s, me, w, place, i);
    match g
    case RExpr =>
      if At(s, i, TIf) {
        IfReads(s, me, w, place, i);
      } else {
        SubstReads(RLevel(OR), s, me, w, place, i);
      }
    case RLevel(l) =>
      if l == UNARY {
        SubstReads(RUnary, s, me, w, place, i);
      } else {
        var a := ParseLevel(true, s, i, l + 1);
        RestBases(s, a.next, l, a.e);
        SubstReads(RLevel(l + 1), s, me, w, place, i);
        ShownAt(s, me, w, place, a.next);
        SubstReads(RRest(l, a.e), s, me, w, place, a.next);
      }
    case RRest(l, a) =>
      RestReads(l, a, s, me, w, place, i);
    case RUnary =>
      if UnAt(s[i]).Some? {
        ShownAt(s, me, w, place, i + 1);
        SubstReads(RUnary, s, me, w, place, i + 1);
      } else {
        SubstReads(RPrimary, s, me, w, place, i);
      }
    case RPrimary =>
      PrimaryReads(s, me, w, place, i);
  }

  lemma {:induction false} IfReads(s: Text, me: map<Name, Expr>, w: Text, place: seq<nat>, i: nat)
    requires i <= |s| && Aligned(s, me, w, place) && place[i] <= |w| && At(s, i, TIf)
    requires ParseExpr(true, s, i).Good? && Bases(ParseExpr(true, s, i).e) !! me.Keys
    ensures var r := ParseExpr(true, s, i);
      ParseExpr(true, w, place[i]) == Good(Subst(r.e, me), place[r.next])
    decreases |s| - i, 0
  {
    ShownAt(s, me, w, place, i);
    ShownAt(s, me, w, place, i + 1);
    SubstReads(RExpr, s, me, w, place, i + 1);
    var j := ParseExpr(true, s, i + 1).next;
    ShownAt(s, me, w, place, j);
    ShownAt(s, me, w, place, j + 1);
    SubstReads(RExpr, s, me, w, place, j + 1);
    var k := ParseExpr(true, s, j + 1).next;
    ShownAt(s, me, w, place, k);
    ShownAt(s, me, w, place, k + 1);
    SubstReads(RExpr, s, me, w, place, k + 1);
  }

  /** The left operand is part of what is read. */
  lemma {:induction false} RestBases(s: Text, i: nat, l: nat, a: Expr)
    requires l < UNARY && i <= |s| && ParseRest(true, s, i, l, a).Good?
    ensures Bases(a) <= Bases(ParseRest(true, s, i, l, a).e)
    decreases |s| - i
  {
    if OpHere(s, i, l) && l != CMP {
      var b := ParseLevel(true, s, i + 1, l + 1);
      RestBases(s, b.next, l, Bin(OpAt(l, s[i]).value, a, b.e));
    }
  }

  lemma {:induction false} RestReads(l: nat, a: Expr, s: Text, me: map<Name, Expr>, w: Text, place: seq<nat>, i: nat)
    requires l < UNARY && i <= |s| && Aligned(s, me, w, place) && place[i] <= |w|
    requires ParseRest(true, s, i, l, a).Good? && Bases(ParseRest(true, s, i, l, a).e) !! me.Keys
    ensures var r := ParseRest(true, s, i, l, a);
      ParseRest(true, w, place[i], l, Subst(a, me)) == Good(Subst(r.e, me), place[r.next])
    decreases |s| - i, 0, 0
  {
    ShownAt(s, me, w, place, i);
    assert OpHere(w, place[i], l) == OpHere(s, i, l);
    if OpHere(s, i, l) {
      var b := ParseLevel(true, s, i + 1, l + 1);
      var e := Bin(OpAt(l, s[i]).value, a, b.e);
      if l != CMP {
        RestBases(s, b.next, l, e);
      }
      ShownAt(s, me, w, place, i + 1);
      SubstReads(RLevel(l + 1), s, me, w, place, i + 1);
      if l != CMP {
        ShownAt(s, me, w, place, b.next);
        RestReads(l, e, s, me, w, place, b.next);
      }
    }
  }

  lemma {:induction false} PrimaryReads(s: Text, me: map<Name, Expr>, w: Text, place: seq<nat>, i: nat)
    requires i <= |s| && Aligned(s, me, w, place) && place[i] <= |w|
    requires ParsePrimary(true, s, i).Good? && Bases(ParsePrimary(true, s, i).e) !! me.Keys
    ensures var r := ParsePrimary(true, s, i);
      ParsePrimary(true, w, place[i]) == Good(Subst(r.e, me), place[r.next])
    decreases |s| - i, 0, 2
  {
    ShownAt(s, me, w, place, i);
    if s[i].TLPar? {
      ParenthesesRead(s, me, w, place, i);
    } else if s[i].TId? {
      NameReads(s, me, w, place, i);
    }
  }

  lemma {:induction false} ParenthesesRead(s: Text, me: map<Name, Expr>, w: Text, place: seq<nat>, i: nat)
    requires i < |s| && s[i].TLPar? && Aligned(s, me, w, place) && place[i] <= |w|
    requires ParsePrimary(true, s, i).Good? && Bases(ParsePrimary(true, s, i).e) !! me.Keys
    ensures var r := ParsePrimary(true, s, i);
      ParsePrimary(true, w, place[i]) == Good(Subst(r.e, me), place[r.next])
    decreases |s| - i, 0, 1
  {
    ShownAt(s, me, w, place, i);
    ShownAt(s, me, w, place, i + 1);
    SubstReads(RExpr, s, me, w, place, i + 1);
    ShownAt(s, me, w, place, ParseExpr(true, s, i + 1).next);
  }

  lemma {:induction false} IndexReads(s: Text, me: map<Name, Expr>, w: Text, place: seq<nat>, i: nat)
    requires i < |s| && s[i].TId? && !Replaced(s[i], me) && At(s, i + 1, TLBrk) && Aligned(s, me, w, place)
    requires ParseName(true, s, i).Good? && Bases(ParseName(true, s, i).e) !! me.Keys
    ensures place[i] < |w| && w[place[i]] == s[i] && At(w, place[i] + 1, TLBrk)
    ensures var r := ParseName(true, s, i);
      ParseName(true, w, place[i]) == Good(Subst(r.e, me), place[r.next])
    decreases |s| - i, 0, 0
  {
    ShownAt(s, me, w, place, i);
    ShownAt(s, me, w, place, i + 1);
    ShownAt(s, me, w, place, i + 2);
    SubstReads(RExpr, s, me, w, place, i + 2);
    ShownAt(s, me, w, place, ParseExpr(true, s, i + 2).next);
  }

  lemma {:induction false} NameReads(s: Text, me: map<Name, Expr>, w: Text, place: seq<nat>, i: nat)
    requires i < |s| && s[i].TId? && Aligned(s, me, w, place) && place[i] <= |w|
    requires ParseName(true, s, i).Good? && Bases(ParseName(true, s, i).e) !! me.Keys
    ensures var r := ParseName(true, s, i);
      ParsePrimary(true, w, place[i]) == Good(Subst(r.e, me), place[r.next])
    decreases |s| - i, 0, 1
  {
    ShownAt(s, me, w, place, i);
    if Replaced(s[i], me) {
      assert TokenAligned(s, me, w, place, i);
    } else if At(s, i + 1, TLBrk) {
      IndexReads(s, me, w, place, i);
    } else {
      ShownAt(s, me, w, place, i + 1);
    }
  }

  /** The text substitution of the scheduler means the substitution of expressions. */
  lemma SubstDenotes(s: Text, e: Expr, m: map<Name, Text>, me: map<Name, Expr>)
    requires Denotes(s, e) && TextsDenote(m, me) && Bases(e) !! m.Keys
    ensures Denotes(SubstText(s, m), Subst(e, me))
  {
    var place := SubstAligned(s, m, me);
    SubstReads(RExpr, s, me, SubstText(s, m), place, 0);
  }
}
