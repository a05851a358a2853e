/**
  Which chains of expression texts the scheduler's chain parser takes apart as they were joined.
  It counts round parentheses only, so an IF is in the open both bare and inside index brackets.
  */
module TornValues {
  import opened Expressions
  import opened Grammar
  import opened Splicing
  import opened Scheduling
  import opened Translation

  /** An IF outside round parentheses between `i` and `j`. */
  ghost predicate IfOpen(s: Text, i: nat, j: nat)
    requires i <= j <= |s|
  {
    exists k | i <= k < j :: s[k].TIf? && Depth(s, k) == Depth(s, i)
  }

  ghost predicate KwOpen(s: Text, i: nat, j: nat, kw: Keyword)
    requires i <= j <= |s|
  {
    exists k | i <= k < j :: Is(s[k], kw) && Depth(s, k) == Depth(s, i)
  }

  /** Every ELSE in the open has a THEN in the open before it. */
  ghost predicate ThenFirst(s: Text, i: nat, j: nat)
    requires i <= j <= |s|
  {
    forall k | i <= k < j :: Is(s[k], Else) && Depth(s, k) == Depth(s, i) ==> KwOpen(s, i, k, Then)
  }

  /** A stretch that ends at the depth it began with, its keywords in the open together or not at all. */
  ghost predicate Even(s: Text, i: nat, j: nat) {
    && i <= j <= |s| && Depth(s, j) == Depth(s, i) && ThenFirst(s, i, j)
    && (IfOpen(s, i, j) <==> KwOpen(s, i, j, Then)) && (IfOpen(s, i, j) <==> KwOpen(s, i, j, Else))
  }

  lemma EvenJoins(s: Text, i: nat, j: nat, k: nat)
    requires Even(s, i, j) && Even(s, j, k)
    ensures Even(s, i, k)
  {
    OpenJoins(s, i, j, k);
    forall m | j <= m < k && Is(s[m], Else) && Depth(s, m) == Depth(s, i)
      ensures KwOpen(s, i, m, Then)
    {
      assert KwOpen(s, j, m, Then);
    }
  }

  lemma OpenJoins(s: Text, i: nat, j: nat, k: nat)
    requires i <= j <= k <= |s| && Depth(s, j) == Depth(s, i)
    ensures IfOpen(s, i, k) <==> IfOpen(s, i, j) || IfOpen(s, j, k)
    ensures forall kw :: KwOpen(s, i, k, kw) <==> KwOpen(s, i, j, kw) || KwOpen(s, j, k, kw)
  {
  }

  /** A token that neither turns nor is a keyword. */
  lemma PlainEven(s: Text, i: nat)
    requires i < |s| && Turn(s[i]) == 0 && !Keyworded(s[i])
    ensures Even(s, i, i + 1)
  {
  }

  lemma EmptyEven(s: Text, i: nat)
    requires i <= |s|
    ensures Even(s, i, i)
  {
  }

  /** Nothing inside parentheses is in the open. */
  lemma ParenEven(s: Text, i: nat, j: nat)
    requires i + 1 <= j < |s| && s[i].TLPar? && s[j].TRPar? && Above(s, i + 1, j)
    ensures Even(s, i, j + 1)
  {
    assert Depth(s, i + 1) == Depth(s, i) + 1 && Depth(s, j + 1) == Depth(s, j) - 1;
  }

  lemma IfDepths(s: Text, i: nat, j: nat, k: nat, n: nat)
    requires i < j < k < n <= |s| && s[i].TIf? && s[j].TThen? && s[k].TElse?
    requires Depth(s, j) == Depth(s, i + 1) && Depth(s, k) == Depth(s, j + 1) && Depth(s, n) == Depth(s, k + 1)
    ensures Depth(s, i + 1) == Depth(s, i) && Depth(s, j) == Depth(s, i) && Depth(s, k) == Depth(s, i) && Depth(s, n) == Depth(s, i)
  {
  }

  /** In front of its THEN a conditional holds no ELSE without one; behind it that THEN serves. */
  lemma IfThenFirst(s: Text, i: nat, j: nat, n: nat)
    requires i < j < n <= |s| && s[i].TIf? && s[j].TThen? && Depth(s, i + 1) == Depth(s, i) == Depth(s, j)
    requires ThenFirst(s, i + 1, j)
    ensures ThenFirst(s, i, n)
  {
    forall m | i <= m < n && Is(s[m], Else) && Depth(s, m) == Depth(s, i)
      ensures KwOpen(s, i, m, Then)
    {
      if m < j {
        assert KwOpen(s, i + 1, m, Then);
      } else {
        assert Is(s[j], Then);
      }
    }
  }

  lemma IfEven(s: Text, i: nat, j: nat, k: nat, n: nat)
    requires i < j < k < n <= |s| && s[i].TIf? && s[j].TThen? && s[k].TElse?
    requires Even(s, i + 1, j) && Even(s, j + 1, k) && Even(s, k + 1, n)
    ensures Even(s, i, n)
  {
    IfDepths(s, i, j, k, n);
    IfThenFirst(s, i, j, n);
    assert Is(s[j], Then) && Is(s[k], Else);
  }

  /** Whatever is read has its keywords in the open together or not at all. */
  lemma {:induction false} ReadsEven(g: Rule, s: Text, i: nat)
    requires Legal(g) && i <= |s| && Run(g, true, s, i).Good?
    ensures i <= Run(g, true, s, i).next && Even(s, i, Run(g, true, s, i).next)
    decreases |s| - i, Rank(g)
  {
    match g
    case RExpr =>
      if At(s, i, TIf) {
        ConditionalEven(s, i);
      } else {
        ReadsEven(RLevel(OR), s, i);
      }
    case RLevel(l) =>
      if l == UNARY {
        ReadsEven(RUnary, s, i);
      } else {
        var a := ParseLevel(true, s, i, l + 1);
        ReadsEven(RLevel(l + 1), s, i);
        ReadsEven(RRest(l, a.e), s, a.next);
        EvenJoins(s, i, a.next, Run(g, true, s, i).next);
      }
    case RRest(l, a) =>
      RestEven(s, i, l, a);
    case RUnary =>
      if UnAt(s[i]).Some? {
        PlainEven(s, i);
        ReadsEven(RUnary, s, i + 1);
        EvenJoins(s, i, i + 1, Run(g, true, s, i).next);
      } else {
        ReadsEven(RPrimary, s, i);
      }
    case RPrimary =>
      PrimaryEven(s, i);
  }

  /** The joints of a conditional that is read. */
  lemma {:induction false} IfRead(s: Text, i: nat) returns (j: nat, k: nat, n: nat)
    requires i <= |s| && At(s, i, TIf) && ParseExpr(true, s, i).Good?
    ensures i < j < k < n <= |s| && s[j].TThen? && s[k].TElse? && ParseExpr(true, s, i).next == n
    ensures ParseExpr(true, s, i + 1).Good? && ParseExpr(true, s, i + 1).next == j
    ensures ParseExpr(true, s, j + 1).Good? && ParseExpr(true, s, j + 1).next == k
    ensures ParseExpr(true, s, k + 1).Good? && ParseExpr(true, s, k + 1).next == n
  {
    j := ParseExpr(true, s, i + 1).next;
    k := ParseExpr(true, s, j + 1).next;
    n := ParseExpr(true, s, k + 1).next;
  }

  lemma {:induction false} ConditionalEven(s: Text, i: nat)
    requires i <= |s| && At(s, i, TIf) && ParseExpr(true, s, i).Good?
    ensures Even(s, i, ParseExpr(true, s, i).next)
    decreases |s| - i, 0
  {
    var j, k, n := IfRead(s, i);
    ReadsEven(RExpr, s, i + 1);
    ReadsEven(RExpr, s, j + 1);
    ReadsEven(RExpr, s, k + 1);
    IfEven(s, i, j, k, n);
  }

  lemma {:induction false} RestEven(s: Text, i: nat, l: nat, a: Expr)
    requires l < UNARY && i <= |s| && ParseRest(true, s, i, l, a).Good?
    ensures i <= ParseRest(true, s, i, l, a).next && Even(s, i, ParseRest(true, s, i, l, a).next)
    decreases |s| - i, 0, 0
  {
    if OpHere(s, i, l) {
      var b := ParseLevel(true, s, i + 1, l + 1);
      PlainEven(s, i);
      ReadsEven(RLevel(l + 1), s, i + 1);
      EvenJoins(s, i, i + 1, b.next);
      if l != CMP {
        var e := Bin(OpAt(l, s[i]).value, a, b.e);
        RestEven(s, b.next, l, e);
        EvenJoins(s, i, b.next, ParseRest(true, s, b.next, l, e).next);
      }
    } else {
      EmptyEven(s, i);
    }
  }

  lemma {:induction false} IndexRead(s: Text, i: nat) returns (j: nat)
    requires i < |s| && s[i].TId? && At(s, i + 1, TLBrk) && ParsePrimary(true, s, i).Good?
    ensures i + 2 <= j < |s| && s[j].TRBrk? && ParsePrimary(true, s, i).next == j + 1
    ensures ParseExpr(true, s, i + 2).Good? && ParseExpr(true, s, i + 2).next == j
  {
    j := ParseExpr(true, s, i + 2).next;
  }

  lemma BracketEven(s: Text, i: nat, j: nat)
    requires i + 2 <= j < |s| && s[i].TId? && s[i + 1].TLBrk? && s[j].TRBrk? && Even(s, i + 2, j)
    ensures Even(s, i, j + 1)
  {
    PlainEven(s, i);
    PlainEven(s, i + 1);
    EvenJoins(s, i, i + 1, i + 2);
    EvenJoins(s, i, i + 2, j);
    PlainEven(s, j);
    EvenJoins(s, i, j, j + 1);
  }

  lemma {:induction false} ParenRead(s: Text, i: nat) returns (j: nat)
    requires i < |s| && s[i].TLPar? && ParsePrimary(true, s, i).Good?
    ensures i + 1 <= j < |s| && s[j].TRPar? && ParsePrimary(true, s, i).next == j + 1
    ensures ParseExpr(true, s, i + 1).Good? && ParseExpr(true, s, i + 1).next == j
  {
    j := ParseExpr(true, s, i + 1).next;
  }

  /** A primary that is neither parenthesised nor indexed is one token, and no keyword. */
  lemma TokenRead(s: Text, i: nat)
    requires i < |s| && !s[i].TLPar? && !(s[i].TId? && At(s, i + 1, TLBrk)) && ParsePrimary(true, s, i).Good?
    ensures ParsePrimary(true, s, i).next == i + 1 && Turn(s[i]) == 0 && !Keyworded(s[i])
  {
  }

  lemma {:induction false} PrimaryEven(s: Text, i: nat)
    requires i <= |s| && ParsePrimary(true, s, i).Good?
    ensures Even(s, i, ParsePrimary(true, s, i).next)
    decreases |s| - i, 0
  {
    if s[i].TLPar? {
      var j := ParenRead(s, i);
      ReadsBalanced(RExpr, s, i + 1);
      ParenEven(s, i, j);
    } else if s[i].TId? && At(s, i + 1, TLBrk) {
      var j := IndexRead(s, i);
      ReadsEven(RExpr, s, i + 2);
      BracketEven(s, i, j);
    } else {
      TokenRead(s, i);
      PlainEven(s, i);
    }
  }

  /** Keywords in the open are those the search finds. */
  lemma TopIsOpen(s: Text, kw: Keyword)
    ensures Top(s, kw, 0).None? <==> !KwOpen(s, 0, |s|, kw)
  {
    assert Depth(s, 0) == 0;
    if KwOpen(s, 0, |s|, kw) {
      var k :| 0 <= k < |s| && Is(s[k], kw) && Depth(s, k) == Depth(s, 0);
      assert AtTop(s, kw, k);
    }
  }

  /** For the text of an expression, no IF in the open is all that a guard or a value must meet. */
  lemma DenotedIsSealed(s: Text, e: Expr)
    requires Denotes(s, e)
    ensures Sealed(s) <==> !IfOpen(s, 0, |s|)
    ensures ElseFree(s) <==> !IfOpen(s, 0, |s|)
  {
    ReadsEven(RExpr, s, 0);
    assert Depth(s, 0) == 0;
    TopIsOpen(s, Then);
    TopIsOpen(s, Else);
  }

  /** The text of an expression is cut exactly when it is a conditional on the outside. */
  lemma DenotedIsCut(s: Text, e: Expr)
    requires Denotes(s, e)
    ensures Cut(s).Some? <==> StartsIf(s)
  {
    ReadsEven(RExpr, s, 0);
    assert Depth(s, 0) == 0;
    if StartsIf(s) {
      assert IfOpen(s, 0, |s|);
      TopIsOpen(s, Then);
      TopIsOpen(s, Else);
      var k := Top(s, Else, 0).value;
      assert AtTop(s, Else, k) && KwOpen(s, 0, k, Then);
      var m :| 0 <= m < k && Is(s[m], Then) && Depth(s, m) == Depth(s, 0);
      assert AtTop(s, Then, m);
    }
  }

  /**
    A chain of expression texts comes apart as it was joined exactly when no guard and no value has an
    IF outside round parentheses, and the default does not start with one.
    */
  lemma ExpressionsComeApartIff(pairs: seq<Clause>, dflt: Text, es: seq<(Expr, Expr)>, ed: Expr)
    requires ClausesDenote(pairs, es) && Denotes(dflt, ed)
    ensures SplitChain(JoinChain(pairs, dflt)) == (pairs, dflt) <==>
      !StartsIf(dflt) &&
      forall k | 0 <= k < |pairs| :: !IfOpen(pairs[k].0, 0, |pairs[k].0|) && !IfOpen(pairs[k].1, 0, |pairs[k].1|)
  {
    JoinSplitsIff(pairs, dflt);
    DenotedIsCut(dflt, ed);
    forall k | 0 <= k < |pairs|
      ensures Sealed(pairs[k].0) <==> !IfOpen(pairs[k].0, 0, |pairs[k].0|)
      ensures ElseFree(pairs[k].1) <==> !IfOpen(pairs[k].1, 0, |pairs[k].1|)
    {
      DenotedIsSealed(pairs[k].0, es[k].0);
      DenotedIsSealed(pairs[k].1, es[k].1);
    }
  }

  // ---------------------------------------------------------------------------
  // The two shapes of a value that is torn
  // ---------------------------------------------------------------------------

  /** A conditional is torn as a value, bare or as an index. */
  lemma ConditionalValuesAreTorn(g: Text, h: Text, a: Text, b: Text, x: Name, e: Text, eh: Expr, ea: Expr, eb: Expr)
    requires Denotes(h, eh) && Denotes(a, ea) && Denotes(b, eb)
    ensures var bare, index := IfText(h, a, b), IndexText(x, IfText(h, a, b));
      && Denotes(bare, Ite(eh, ea, eb)) && Denotes(index, Index(x, Ite(eh, ea, eb)))
      && SplitChain(JoinChain([(g, bare)], e)) != ([(g, bare)], e)
      && SplitChain(JoinChain([(g, index)], e)) != ([(g, index)], e)
  {
    var bare, index := IfText(h, a, b), IndexText(x, IfText(h, a, b));
    IfDenotes(h, a, b, eh, ea, eb);
    IndexDenotes(x, bare, Ite(eh, ea, eb));
    OpenInFrontOf(bare, 0);
    OpenInFrontOf(index, 2);
    DenotedIsSealed(bare, Ite(eh, ea, eb));
    DenotedIsSealed(index, Index(x, Ite(eh, ea, eb)));
    JoinSplitsIff([(g, bare)], e);
    JoinSplitsIff([(g, index)], e);
    assert [(g, bare)][0].1 == bare && [(g, index)][0].1 == index;
  }

  lemma OpenInFrontOf(s: Text, i: nat)
    requires i < |s| && s[i].TIf? && i <= 2 && forall k | 0 <= k < i :: Turn(s[k]) == 0
    ensures IfOpen(s, 0, |s|)
  {
    if i > 0 {
      assert Depth(s, 1) == Depth(s, 0);
      assert i == 2 ==> Depth(s, 2) == Depth(s, 1);
    }
  }
}
