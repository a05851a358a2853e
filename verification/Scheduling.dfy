/**
  The text side of the scheduler: a loop body is taken apart at its outermost IF chain and put
  back together inside the LOAD / STEP / HOLD chain of its register. Proved: taking apart loses
  nothing, flat chains come apart exactly as they were joined, and the emitted texts are read as
  the next-state expressions of the circuit.
  */
module Scheduling {
  import opened Expressions
  import opened Grammar
  import opened Splicing
  import opened Handshake

  // ---------------------------------------------------------------------------
  // Keywords outside parentheses
  // ---------------------------------------------------------------------------

  datatype Keyword = Then | Else

  predicate Is(t: Token, kw: Keyword) {
    match kw case Then => t.TThen? case Else => t.TElse?
  }

  function Turn(t: Token): int {
    if t.TLPar? then 1 else if t.TRPar? then -1 else 0
  }

  /** Parentheses opened minus parentheses closed before token `i`. */
  function Depth(s: Text, i: nat): int
    requires i <= |s|
  {
    if i == 0 then 0 else Depth(s, i - 1) + Turn(s[i - 1])
  }

  predicate AtTop(s: Text, kw: Keyword, i: nat) {
    i < |s| && Is(s[i], kw) && Depth(s, i) == 0
  }

  /** The first `kw` outside parentheses from token `i` on. */
  function Top(s: Text, kw: Keyword, i: nat): (r: Option<nat>)
    ensures r.Some? ==> i <= r.value && AtTop(s, kw, r.value) && forall j | i <= j < r.value :: !AtTop(s, kw, j)
    ensures r.None? ==> forall j | i <= j :: !AtTop(s, kw, j)
    decreases |s| - i
  {
    if i >= |s| then None else if AtTop(s, kw, i) then Some(i) else Top(s, kw, i + 1)
  }

  /** `_top_kw` */
  method TopKw(s: Text, kw: Keyword) returns (r: Option<nat>)
    ensures r == Top(s, kw, 0)
  {
    var depth, i := 0, 0;
    while i < |s|
      invariant 0 <= i <= |s| && depth == Depth(s, i)
      invariant Top(s, kw, 0) == Top(s, kw, i)
    {
      if s[i].TLPar? {
        depth := depth + 1;
      } else if s[i].TRPar? {
        depth := depth - 1;
      } else if depth == 0 && Is(s[i], kw) {
        return Some(i);
      }
      i := i + 1;
    }
    return None;
  }

  lemma {:induction false} DepthInside(p: Text, s: Text, q: Text, i: nat)
    requires i <= |s|
    ensures Depth(p + s + q, |p| + i) == Depth(p, |p|) + Depth(s, i)
    decreases i
  {
    if i > 0 {
      DepthInside(p, s, q, i - 1);
      assert (p + s + q)[|p| + i - 1] == s[i - 1];
    } else {
      DepthPrefix(p, p + s + q, |p|);
    }
  }

  lemma {:induction false} DepthPrefix(p: Text, w: Text, i: nat)
    requires p <= w && i <= |p|
    ensures Depth(w, i) == Depth(p, i)
    decreases i
  {
    if i > 0 {
      DepthPrefix(p, w, i - 1);
    }
  }

  /** Inside a text, behind balanced parentheses, keywords are where they were in the piece. */
  lemma TopInside(p: Text, s: Text, q: Text, kw: Keyword, i: nat)
    requires i < |s| && Depth(p, |p|) == 0
    ensures AtTop(p + s + q, kw, |p| + i) == AtTop(s, kw, i)
  {
    DepthInside(p, s, q, i);
    assert (p + s + q)[|p| + i] == s[i];
  }

  // ---------------------------------------------------------------------------
  // Chains
  // ---------------------------------------------------------------------------

  type Clause = (Text, Text)

  function JoinChain(pairs: seq<Clause>, dflt: Text): Text {
    if pairs == [] then dflt else IfText(pairs[0].0, pairs[0].1, JoinChain(pairs[1..], dflt))
  }

  /** Where an IF chain is cut: its first THEN and its first ELSE outside parentheses. */
  function Cut(s: Text): (r: Option<(nat, nat)>)
    ensures r.Some? ==> 0 < r.value.0 < r.value.1 < |s|
    ensures r.Some? ==> s[0].TIf? && s[r.value.0].TThen? && s[r.value.1].TElse?
  {
    if s == [] || !s[0].TIf? then None
    else
      var t, e := Top(s, Then, 0), Top(s, Else, 0);
      if t.None? || e.None? || e.value < t.value then None else Some((t.value, e.value))
  }

  function SplitChain(s: Text): (seq<Clause>, Text)
    decreases |s|
  {
    match Cut(s)
    case None => ([], s)
    case Some((t, e)) =>
      var (pairs, dflt) := SplitChain(s[e + 1..]);
      ([(s[1..t], s[t + 1..e])] + pairs, dflt)
  }

  /** One more clause is cut off. */
  lemma ClauseCut(s: Text, pairs: seq<Clause>, rest: Text)
    requires SplitChain(s) == (pairs + SplitChain(rest).0, SplitChain(rest).1) && Cut(rest).Some?
    ensures var (t, e) := Cut(rest).value;
      var after := SplitChain(rest[e + 1..]);
      SplitChain(s) == (pairs + [(rest[1..t], rest[t + 1..e])] + after.0, after.1)
  {
    var (t, e) := Cut(rest).value;
    var clause, after := (rest[1..t], rest[t + 1..e]), SplitChain(rest[e + 1..]);
    assert pairs + ([clause] + after.0) == pairs + [clause] + after.0;
  }

  /** `_parse_if_chain` */
  method ParseIfChain(s: Text) returns (pairs: seq<Clause>, rest: Text)
    ensures (pairs, rest) == SplitChain(s)
  {
    pairs, rest := [], s;
    assert [] + SplitChain(s).0 == SplitChain(s).0;
    while rest != [] && rest[0].TIf?
      invariant SplitChain(s) == (pairs + SplitChain(rest).0, SplitChain(rest).1)
      decreases |rest|
    {
      var t := TopKw(rest, Then);
      var e := TopKw(rest, Else);
      if t.None? || e.None? || e.value < t.value {
        break;
      }
      ClauseCut(s, pairs, rest);
      pairs := pairs + [(rest[1..t.value], rest[t.value + 1..e.value])];
      rest := rest[e.value + 1..];
    }
    assert SplitChain(rest) == ([], rest);
    assert pairs + [] == pairs;
  }

  /** Joining what was split gives the text back: nothing is lost, whatever the text. */
  lemma {:induction false} SplitRejoins(s: Text)
    ensures JoinChain(SplitChain(s).0, SplitChain(s).1) == s
    decreases |s|
  {
    match Cut(s)
    case None =>
    case Some((t, e)) =>
      SplitRejoins(s[e + 1..]);
      CutRejoins(s, t, e);
      JoinFirst((s[1..t], s[t + 1..e]), SplitChain(s[e + 1..]).0, SplitChain(s[e + 1..]).1);
  }

  lemma CutRejoins(s: Text, t: nat, e: nat)
    requires t < e < |s| && t > 0 && s[0].TIf? && s[t].TThen? && s[e].TElse?
    ensures s == IfText(s[1..t], s[t + 1..e], s[e + 1..])
  {
  }

  lemma JoinFirst(p: Clause, pairs: seq<Clause>, dflt: Text)
    ensures JoinChain([p] + pairs, dflt) == IfText(p.0, p.1, JoinChain(pairs, dflt))
  {
    assert ([p] + pairs)[1..] == pairs;
  }

  /** No THEN or ELSE outside parentheses, and as many parentheses closed as opened. */
  predicate Sealed(s: Text) {
    Depth(s, |s|) == 0 && Top(s, Then, 0).None? && Top(s, Else, 0).None?
  }

  /** No ELSE outside parentheses, and as many parentheses closed as opened. */
  predicate ElseFree(s: Text) {
    Depth(s, |s|) == 0 && Top(s, Else, 0).None?
  }

  /** What comes apart as it was joined: sealed guards, no ELSE in the open in a value, a default that is not cut. */
  predicate Joinable(pairs: seq<Clause>, dflt: Text) {
    && (forall k | 0 <= k < |pairs| :: Sealed(pairs[k].0) && ElseFree(pairs[k].1))
    && Cut(dflt).None?
  }

  /** A flat chain: guards and values sealed, the default not itself an IF. */
  predicate Flat(pairs: seq<Clause>, dflt: Text) {
    && (forall k | 0 <= k < |pairs| :: Sealed(pairs[k].0) && Sealed(pairs[k].1))
    && Cut(dflt).None?
  }

  /** Behind a balanced text with no keyword, a keyword is the first of its kind. */
  lemma FirstAfter(p: Text, s: Text, t: Token, q: Text, kw: Keyword)
    requires Depth(p, |p|) == 0 && Depth(s, |s|) == 0 && Is(t, kw)
    requires forall i | 0 <= i < |p| :: !AtTop(p, kw, i)
    requires forall i | 0 <= i < |s| :: !AtTop(s, kw, i)
    ensures Top(p + s + ([t] + q), kw, 0) == Some(|p| + |s|)
  {
    var w, tail := p + s + ([t] + q), [t] + q;
    forall i | 0 <= i < |p| + |s|
      ensures !AtTop(w, kw, i)
    {
      if i < |p| {
        DepthPrefix(p, w, i);
        assert !AtTop(p, kw, i) && w[i] == p[i];
      } else {
        TopInside(p, s, tail, kw, i - |p|);
      }
    }
    DepthInside(p, s, tail, |s|);
    assert w[|p| + |s|] == t;
    assert AtTop(w, kw, |p| + |s|);
  }

  /** What stands before the value of a chain. */
  lemma HeadDepth(g: Text)
    requires Sealed(g)
    ensures var p := [TIf] + g + [TThen];
      Depth(p, |p|) == 0 && forall i | 0 <= i < |p| :: !AtTop(p, Else, i)
  {
    var p := [TIf] + g + [TThen];
    assert Depth([TIf], 1) == Depth([TIf], 0) == 0;
    DepthInside([TIf], g, [TThen], |g|);
    assert p[|g| + 1] == TThen && p[0] == TIf;
    forall i | 0 <= i < |p|
      ensures !AtTop(p, Else, i)
    {
      if 0 < i <= |g| {
        TopInside([TIf], g, [TThen], Else, i - 1);
      }
    }
  }

  lemma ThenAt(g: Text, q: Text)
    requires Sealed(g)
    ensures Top([TIf] + g + ([TThen] + q), Then, 0) == Some(|g| + 1)
  {
    assert Depth([TIf], 1) == Depth([TIf], 0) == 0;
    FirstAfter([TIf], g, TThen, q, Then);
  }

  lemma ElseAt(w: Text, p: Text, g: Text, v: Text, rest: Text)
    requires p == [TIf] + g + [TThen] && w == p + v + ([TElse] + rest)
    requires Sealed(g) && ElseFree(v)
    ensures Top(w, Else, 0) == Some(|p| + |v|)
  {
    HeadDepth(g);
    FirstAfter(p, v, TElse, rest, Else);
  }

  lemma IfCut(g: Text, t: Text, e: Text)
    requires Sealed(g) && ElseFree(t)
    ensures Cut(IfText(g, t, e)) == Some((|g| + 1, |g| + |t| + 2))
  {
    IfShape(g, t, e);
    ThenAt(g, t + ([TElse] + e));
    ElseAt(IfText(g, t, e), [TIf] + g + [TThen], g, t, e);
  }

  /** Nothing of its kind stands in the open in a piece behind balanced parentheses. */
  lemma NoneInside(p: Text, s: Text, q: Text, kw: Keyword)
    requires Depth(p, |p|) == 0 && forall i | |p| <= i < |p| + |s| :: !AtTop(p + s + q, kw, i)
    ensures Top(s, kw, 0).None?
  {
    forall i | 0 <= i < |s|
      ensures !AtTop(s, kw, i)
    {
      TopInside(p, s, q, kw, i);
    }
  }

  lemma ThenCuts(g: Text, q: Text)
    requires Top([TIf] + g + ([TThen] + q), Then, 0) == Some(|g| + 1)
    ensures Depth(g, |g|) == 0 && Top(g, Then, 0).None?
  {
    assert Depth([TIf], 1) == Depth([TIf], 0) == 0;
    DepthInside([TIf], g, [TThen] + q, |g|);
    NoneInside([TIf], g, [TThen] + q, Then);
  }

  lemma GuardHoldsNoElse(g: Text, q: Text)
    requires forall i | 0 <= i < |g| + 1 :: !AtTop([TIf] + g + q, Else, i)
    ensures Top(g, Else, 0).None?
  {
    assert Depth([TIf], 1) == Depth([TIf], 0) == 0;
    NoneInside([TIf], g, q, Else);
  }

  lemma ValueHoldsNoElse(g: Text, t: Text, q: Text)
    requires Depth(g, |g|) == 0
    requires Top([TIf] + g + [TThen] + t + q, Else, 0) == Some(|g| + |t| + 2)
    ensures ElseFree(t)
  {
    var p := [TIf] + g + [TThen];
    BalancedHead(g);
    DepthInside(p, t, q, |t|);
    NoneInside(p, t, q, Else);
  }

  lemma BalancedHead(g: Text)
    requires Depth(g, |g|) == 0
    ensures Depth([TIf] + g + [TThen], |g| + 2) == 0
  {
    assert Depth([TIf], 1) == Depth([TIf], 0) == 0;
    DepthInside([TIf], g, [TThen], |g|);
    assert ([TIf] + g + [TThen])[|g| + 1] == TThen;
  }

  lemma ElseCuts(g: Text, t: Text, e: Text)
    requires Depth(g, |g|) == 0
    requires Top(IfText(g, t, e), Else, 0) == Some(|g| + |t| + 2)
    ensures Top(g, Else, 0).None? && ElseFree(t)
  {
    IfShape(g, t, e);
    GuardHoldsNoElse(g, [TThen] + (t + ([TElse] + e)));
    ValueHoldsNoElse(g, t, [TElse] + e);
  }

  /** An IF is cut at its joints exactly when its guard is sealed and its value holds no ELSE in the open. */
  lemma IfCutIff(g: Text, t: Text, e: Text)
    ensures Cut(IfText(g, t, e)) == Some((|g| + 1, |g| + |t| + 2)) <==> Sealed(g) && ElseFree(t)
  {
    if Cut(IfText(g, t, e)) == Some((|g| + 1, |g| + |t| + 2)) {
      IfShape(g, t, e);
      ThenCuts(g, t + ([TElse] + e));
      ElseCuts(g, t, e);
    }
    if Sealed(g) && ElseFree(t) {
      IfCut(g, t, e);
    }
  }

  /** The pieces of an IF, at their places. */
  lemma IfShape(g: Text, t: Text, e: Text)
    ensures var w := IfText(g, t, e);
      && w == [TIf] + g + ([TThen] + (t + ([TElse] + e)))
      && w == [TIf] + g + [TThen] + t + ([TElse] + e)
      && w[1..|g| + 1] == g && w[|g| + 2..|g| + |t| + 2] == t && w[|g| + |t| + 3..] == e
  {
  }

  lemma FirstClauseCuts(s: Text, c: Clause)
    requires SplitChain(s).0 != [] && SplitChain(s).0[0] == c
    ensures Cut(s) == Some((|c.0| + 1, |c.0| + |c.1| + 2))
  {
  }

  lemma IfSplits(g: Text, t: Text, e: Text)
    requires Sealed(g) && ElseFree(t)
    ensures SplitChain(IfText(g, t, e)) == ([(g, t)] + SplitChain(e).0, SplitChain(e).1)
  {
    IfCut(g, t, e);
    IfShape(g, t, e);
  }

  lemma SplitStepIff(g: Text, t: Text, rest: Text, tail: seq<Clause>, dflt: Text)
    ensures SplitChain(IfText(g, t, rest)) == ([(g, t)] + tail, dflt) <==>
      Sealed(g) && ElseFree(t) && SplitChain(rest) == (tail, dflt)
  {
    if Sealed(g) && ElseFree(t) {
      IfSplits(g, t, rest);
      HeadTail((g, t), SplitChain(rest).0, [(g, t)] + tail);
      assert ([(g, t)] + tail)[1..] == tail;
    } else if SplitChain(IfText(g, t, rest)) == ([(g, t)] + tail, dflt) {
      FirstClauseCuts(IfText(g, t, rest), (g, t));
      IfCutIff(g, t, rest);
    }
  }

  /** A joined chain comes apart as it was joined exactly when it is joinable. */
  lemma {:induction false} JoinSplitsIff(pairs: seq<Clause>, dflt: Text)
    ensures SplitChain(JoinChain(pairs, dflt)) == (pairs, dflt) <==> Joinable(pairs, dflt)
    decreases |pairs|
  {
    if pairs != [] {
      var (g, t) := pairs[0];
      JoinSplitsIff(pairs[1..], dflt);
      SplitStepIff(g, t, JoinChain(pairs[1..], dflt), pairs[1..], dflt);
      assert [(g, t)] + pairs[1..] == pairs;
      JoinableStep(pairs, dflt);
    }
  }

  lemma HeadTail<T>(x: T, xs: seq<T>, ys: seq<T>)
    requires ys != [] && ys[0] == x
    ensures [x] + xs == ys <==> xs == ys[1..]
  {
    assert [x] + ys[1..] == ys && ([x] + xs)[1..] == xs;
  }

  lemma JoinableStep(pairs: seq<Clause>, dflt: Text)
    requires pairs != []
    ensures Joinable(pairs, dflt) <==> Sealed(pairs[0].0) && ElseFree(pairs[0].1) && Joinable(pairs[1..], dflt)
  {
    assert forall k | 0 < k < |pairs| :: pairs[1..][k - 1] == pairs[k];
  }

  /** In particular flat chains come apart exactly as they were joined. */
  lemma JoinSplits(pairs: seq<Clause>, dflt: Text)
    requires Flat(pairs, dflt)
    ensures SplitChain(JoinChain(pairs, dflt)) == (pairs, dflt)
  {
    JoinSplitsIff(pairs, dflt);
  }

  /** The pieces of a chain are texts of these expressions. */
  ghost predicate ClausesDenote(pairs: seq<Clause>, es: seq<(Expr, Expr)>) {
    |pairs| == |es| && forall k | 0 <= k < |pairs| :: Denotes(pairs[k].0, es[k].0) && Denotes(pairs[k].1, es[k].1)
  }

  lemma {:induction false} JoinDenotes(pairs: seq<Clause>, dflt: Text, es: seq<(Expr, Expr)>, ed: Expr)
    requires ClausesDenote(pairs, es) && Denotes(dflt, ed)
    ensures Denotes(JoinChain(pairs, dflt), Fold(es, ed))
    decreases |pairs|
  {
    if pairs != [] {
      JoinDenotes(pairs[1..], dflt, es[1..], ed);
      IfDenotes(pairs[0].0, pairs[0].1, JoinChain(pairs[1..], dflt), es[0].0, es[0].1, Fold(es[1..], ed));
    }
  }

  /** A text whose pieces are well formed means the chain of its pieces. */
  lemma SplitDenotes(s: Text, es: seq<(Expr, Expr)>, ed: Expr)
    requires ClausesDenote(SplitChain(s).0, es) && Denotes(SplitChain(s).1, ed)
    ensures Denotes(s, Fold(es, ed))
  {
    SplitRejoins(s);
    JoinDenotes(SplitChain(s).0, SplitChain(s).1, es, ed);
  }

  /** An IF nested bare in a THEN position is cut at the wrong ELSE: the value that comes out is torn. */
  lemma NestedValueIsTorn(g: Text, h: Text, a: Text, b: Text, c: Text)
    requires Sealed(g) && Sealed(h) && Sealed(a)
    ensures var s := IfText(g, IfText(h, a, b), c);
      && SplitChain(s).0 != [] && SplitChain(s).0[0] == (g, [TIf] + h + [TThen] + a)
  {
    var v, rest := [TIf] + h + [TThen] + a, b + [TElse] + c;
    NestedHead(h, a);
    NestedShape(g, h, a, b, c);
    TornAt(g, v, rest);
  }

  /** The first THEN and the first ELSE behind it cut at `g` and at the torn value. */
  lemma TornAt(g: Text, v: Text, rest: Text)
    requires Sealed(g) && ElseFree(v)
    ensures var s := IfText(g, v, rest); SplitChain(s).0 != [] && SplitChain(s).0[0] == (g, v)
  {
    IfSplits(g, v, rest);
  }

  lemma NestedShape(g: Text, h: Text, a: Text, b: Text, c: Text)
    ensures IfText(g, IfText(h, a, b), c) == IfText(g, [TIf] + h + [TThen] + a, b + [TElse] + c)
  {
  }

  lemma NestedHead(h: Text, a: Text)
    requires Sealed(h) && Sealed(a)
    ensures var v := [TIf] + h + [TThen] + a;
      Depth(v, |v|) == 0 && forall i | 0 <= i < |v| :: !AtTop(v, Else, i)
  {
    var p := [TIf] + h + [TThen];
    var v := p + a;
    HeadDepth(h);
    assert p + a + [] == v;
    DepthInside(p, a, [], |a|);
    forall i | 0 <= i < |v|
      ensures !AtTop(v, Else, i)
    {
      if i < |p| {
        DepthPrefix(p, v, i);
        assert !AtTop(p, Else, i);
      } else {
        TopInside(p, a, [], Else, i - |p|);
      }
    }
  }

  /** Such a torn value is no expression: the interpreter runs out of tokens. */
  lemma TornValueFails(h: Text, a: Text, eh: Expr, ea: Expr)
    requires Denotes(h, eh) && Denotes(a, ea)
    ensures Parse([TIf] + h + [TThen] + a) == Bad
  {
    var v := [TIf] + h + [TThen] + a;
    assert v == [TIf] + (h + ([TThen] + a));
    Embedded(RExpr, [TIf], h, [TThen] + a, eh);
    assert v == ([TIf] + h + [TThen]) + (a + []);
    Embedded(RExpr, [TIf] + h + [TThen], a, [], ea);
    StrictIsTolerant(RExpr, v, 1);
    StrictIsTolerant(RExpr, v, |h| + 2);
    assert ParseExpr(false, v, |v|) == Bad by {
      NothingAtEnd(v, OR);
    }
  }

  lemma {:induction false} NothingAtEnd(s: Text, lvl: nat)
    requires lvl <= UNARY
    ensures ParseLevel(false, s, |s|, lvl) == Bad
    decreases UNARY - lvl
  {
    if lvl < UNARY {
      NothingAtEnd(s, lvl + 1);
    } else {
      assert ParseUnary(false, s, |s|) == ParsePrimary(false, s, |s|) == Bad;
    }
  }

  // ---------------------------------------------------------------------------
  // IF-free expressions are sealed
  // ---------------------------------------------------------------------------

  predicate Keyworded(t: Token) {
    t.TIf? || t.TThen? || t.TElse?
  }

  predicate Conditional(s: Text, i: nat, j: nat)
    requires i <= j <= |s|
  {
    exists k | i <= k < j :: s[k].TIf?
  }

  ghost predicate PlainSpan(s: Text, i: nat, j: nat)
    requires i <= j <= |s|
  {
    (forall k | i <= k < j :: !Keyworded(s[k])) && Depth(s, j) == Depth(s, i)
  }

  /** Whatever is read without an IF closes its parentheses and contains no keyword. */
  lemma {:induction false} ReadsPlain(g: Rule, s: Text, i: nat)
    requires Legal(g) && i <= |s| && Run(g, true, s, i).Good?
    requires i <= Run(g, true, s, i).next && !Conditional(s, i, Run(g, true, s, i).next)
    ensures PlainSpan(s, i, Run(g, true, s, i).next)
    decreases |s| - i, Rank(g)
  {
    var end := Run(g, true, s, i).next;
    match g
    case RExpr =>
      ReadsPlain(RLevel(OR), s, i);
    case RLevel(l) =>
      if l == UNARY {
        ReadsPlain(RUnary, s, i);
      } else {
        var a := ParseLevel(true, s, i, l + 1);
        ReadsPlain(RLevel(l + 1), s, i);
        ReadsPlain(RRest(l, a.e), s, a.next);
      }
    case RRest(l, a) =>
      RestPlain(s, i, l, a);
    case RUnary =>
      if UnAt(s[i]).Some? {
        ReadsPlain(RUnary, s, i + 1);
        assert Depth(s, i + 1) == Depth(s, i);
      } else {
        ReadsPlain(RPrimary, s, i);
      }
    case RPrimary =>
      PrimaryPlain(s, i);
  }

  lemma PlainJoins(s: Text, i: nat, j: nat, k: nat)
    requires i <= j <= k <= |s| && PlainSpan(s, i, j) && PlainSpan(s, j, k)
    ensures PlainSpan(s, i, k)
  {
  }

  lemma PlainToken(s: Text, i: nat)
    requires i < |s| && !Keyworded(s[i]) && Turn(s[i]) == 0
    ensures PlainSpan(s, i, i + 1)
  {
  }

  lemma {:induction false} RestPlain(s: Text, i: nat, l: nat, a: Expr)
    requires l < UNARY && i <= |s| && ParseRest(true, s, i, l, a).Good?
    requires i <= ParseRest(true, s, i, l, a).next && !Conditional(s, i, ParseRest(true, s, i, l, a).next)
    ensures PlainSpan(s, i, ParseRest(true, s, i, l, a).next)
    decreases |s| - i, 0, 0
  {
    if OpHere(s, i, l) {
      var b := ParseLevel(true, s, i + 1, l + 1);
      var e := Bin(OpAt(l, s[i]).value, a, b.e);
      var end := if l == CMP then b.next else ParseRest(true, s, b.next, l, e).next;
      assert ParseRest(true, s, i, l, a).next == end;
      PlainToken(s, i);
      ReadsPlain(RLevel(l + 1), s, i + 1);
      PlainJoins(s, i, i + 1, b.next);
      if l != CMP {
        RestPlain(s, b.next, l, e);
        PlainJoins(s, i, b.next, end);
      }
    }
  }

  lemma {:induction false} PrimaryPlain(s: Text, i: nat)
    requires i < |s| && ParsePrimary(true, s, i).Good? && !Conditional(s, i, ParsePrimary(true, s, i).next)
    ensures PlainSpan(s, i, ParsePrimary(true, s, i).next)
    decreases |s| - i, 0
  {
    assert Depth(s, i + 1) == Depth(s, i) + Turn(s[i]);
    if s[i].TLPar? {
      var j := ParseExpr(true, s, i + 1).next;
      ReadsPlain(RExpr, s, i + 1);
      assert Depth(s, j + 1) == Depth(s, j) + Turn(s[j]);
    } else if s[i].TId? && At(s, i + 1, TLBrk) {
      var j := ParseExpr(true, s, i + 2).next;
      ReadsPlain(RExpr, s, i + 2);
      assert Depth(s, i + 2) == Depth(s, i + 1) + Turn(s[i + 1]);
      assert Depth(s, j + 1) == Depth(s, j) + Turn(s[j]);
    }
  }

  /** An IF-free expression is sealed, so it may stand anywhere in a flat chain. */
  lemma PlainIsSealed(s: Text, e: Expr)
    requires Denotes(s, e) && !Conditional(s, 0, |s|)
    ensures Sealed(s) && Cut(s).None? && forall k | 0 <= k < |s| :: !Keyworded(s[k])
  {
    ReadsPlain(RExpr, s, 0);
  }

  // ---------------------------------------------------------------------------
  // The texts the scheduler emits
  // ---------------------------------------------------------------------------

  function EqText(x: Name, n: nat): Text {
    [TId(x)] + [TEq] + [TNum(n)]
  }

  lemma EqDenotes(x: Name, n: nat)
    ensures DenotesAt(CMP, EqText(x, n), Bin(Eq, Var(x), Const(n)))
  {
    NameDenotes(x, CMP + 1);
    NumberDenotes(n, CMP + 1);
    BinDenotes(CMP, [TId(x)], TEq, [TNum(n)], Var(x), Const(n));
  }

  /** `((state = 0) OR (state = 2)) AND start = 1` */
  function LoadText(m: Machine): Text {
    ParenText(ParenText(EqText(m.state, 0)) + [TOrWord] + ParenText(EqText(m.state, 2)))
      + [TAndWord] + EqText(m.start, 1)
  }

  lemma LoadDenotes(m: Machine)
    ensures Denotes(LoadText(m), Load(m))
  {
    EqDenotes(m.state, 0);
    EqDenotes(m.state, 2);
    EqDenotes(m.start, 1);
    OperandDenotes(EqText(m.state, 0), StateIs(m, 0), CMP);
    OperandDenotes(EqText(m.state, 2), StateIs(m, 2), CMP);
    ParenDenotes(EqText(m.state, 0), StateIs(m, 0), OR + 1);
    ParenDenotes(EqText(m.state, 2), StateIs(m, 2), OR + 1);
    var free, e := ParenText(EqText(m.state, 0)) + [TOrWord] + ParenText(EqText(m.state, 2)), Bin(Or, StateIs(m, 0), StateIs(m, 2));
    BinDenotes(OR, ParenText(EqText(m.state, 0)), TOrWord, ParenText(EqText(m.state, 2)), StateIs(m, 0), StateIs(m, 2));
    OperandDenotes(free, e, OR);
    ParenDenotes(free, e, AND + 1);
    BinDenotes(AND, ParenText(free), TAndWord, EqText(m.start, 1), e, Bin(Eq, Var(m.start), Const(1)));
    OperandDenotes(LoadText(m), Load(m), AND);
  }

  /** `state = 1 AND (g)` */
  function BusyAnd(m: Machine, g: Text): Text {
    EqText(m.state, 1) + [TAndWord] + ParenText(g)
  }

  lemma BusyAndDenotes(m: Machine, g: Text, e: Expr)
    requires Denotes(g, e)
    ensures Denotes(BusyAnd(m, g), Bin(And, StateIs(m, 1), e))
  {
    EqDenotes(m.state, 1);
    ParenDenotes(g, e, AND + 1);
    BinDenotes(AND, EqText(m.state, 1), TAndWord, ParenText(g), StateIs(m, 1), e);
    OperandDenotes(BusyAnd(m, g), Bin(And, StateIs(m, 1), e), AND);
  }

  function ControlClauses(m: Machine, stay: Text): seq<Clause> {
    [(LoadText(m), [TNum(1)]), (BusyAnd(m, stay), [TNum(1)]), (EqText(m.state, 1), [TNum(2)]), (EqText(m.state, 2), [TNum(0)])]
  }

  function ControlPairs(m: Machine): seq<(Expr, Expr)> {
    [(Load(m), Const(1)), (Bin(And, StateIs(m, 1), Stay(m)), Const(1)), (StateIs(m, 1), Const(2)), (StateIs(m, 2), Const(0))]
  }

  function StateNextText(m: Machine, stay: Text): Text {
    JoinChain(ControlClauses(m, stay), [TNum(0)])
  }

  lemma ControlFolds(m: Machine)
    ensures Fold(ControlPairs(m), Const(0)) == StateNext(m)
  {
    var es := ControlPairs(m);
    assert es[1..][1..] == es[2..] && es[2..][1..] == es[3..] && es[3..][1..] == [];
    assert Fold(es[3..], Const(0)) == Ite(StateIs(m, 2), Const(0), Const(0));
    assert Fold(es[2..], Const(0)) == Ite(StateIs(m, 1), Const(2), Fold(es[3..], Const(0)));
    assert Fold(es[1..], Const(0)) == Ite(es[1].0, Const(1), Fold(es[2..], Const(0)));
  }

  lemma NumberText(n: nat)
    ensures Denotes([TNum(n)], Const(n))
  {
    NumberDenotes(n, OR);
    OperandDenotes([TNum(n)], Const(n), OR);
  }

  lemma NameText(x: Name)
    ensures Denotes([TId(x)], Var(x))
  {
    NameDenotes(x, OR);
    OperandDenotes([TId(x)], Var(x), OR);
  }

  lemma EqTextDenotes(x: Name, n: nat)
    ensures Denotes(EqText(x, n), Bin(Eq, Var(x), Const(n)))
  {
    EqDenotes(x, n);
    OperandDenotes(EqText(x, n), Bin(Eq, Var(x), Const(n)), CMP);
  }

  predicate ClauseDenotes(c: Clause, e: (Expr, Expr)) {
    Denotes(c.0, e.0) && Denotes(c.1, e.1)
  }

  lemma FourDenote(a: Clause, b: Clause, c: Clause, d: Clause, ea: (Expr, Expr), eb: (Expr, Expr), ec: (Expr, Expr), ed: (Expr, Expr))
    requires ClauseDenotes(a, ea) && ClauseDenotes(b, eb) && ClauseDenotes(c, ec) && ClauseDenotes(d, ed)
    ensures ClausesDenote([a, b, c, d], [ea, eb, ec, ed])
  {
  }

  lemma ControlDenotes(m: Machine, stay: Text)
    requires Denotes(stay, Stay(m))
    ensures ClausesDenote(ControlClauses(m, stay), ControlPairs(m))
  {
    LoadDenotes(m);
    BusyAndDenotes(m, stay, Stay(m));
    EqTextDenotes(m.state, 1);
    EqTextDenotes(m.state, 2);
    NumberText(0);
    NumberText(1);
    NumberText(2);
    var cs, es := ControlClauses(m, stay), ControlPairs(m);
    FourDenote(cs[0], cs[1], cs[2], cs[3], es[0], es[1], es[2], es[3]);
  }

  /** The control chain is read as the control expression. */
  lemma StateNextDenotes(m: Machine, stay: Text)
    requires Denotes(stay, Stay(m))
    ensures Denotes(StateNextText(m, stay), StateNext(m))
  {
    ControlDenotes(m, stay);
    NumberText(0);
    ControlFolds(m);
    JoinDenotes(ControlClauses(m, stay), [TNum(0)], ControlPairs(m), Const(0));
  }

  /** The chain of one loop register: load, then the body's branches while BUSY, then hold. */
  function Segments(m: Machine, init: Text, pairs: seq<Clause>, dflt: Text): (segs: seq<Clause>)
    ensures |segs| == |pairs| + 2
  {
    [(LoadText(m), init)]
      + seq(|pairs|, k requires 0 <= k < |pairs| => (BusyAnd(m, pairs[k].0), pairs[k].1))
      + [(EqText(m.state, 1), dflt)]
  }

  function RegNextText(m: Machine, x: Name, init: Text, pairs: seq<Clause>, dflt: Text): Text {
    JoinChain(Segments(m, init, pairs, dflt), [TId(x)])
  }

  function BusyPairs(m: Machine, pairs: seq<(Expr, Expr)>): (r: seq<(Expr, Expr)>)
    ensures |r| == |pairs|
  {
    seq(|pairs|, k requires 0 <= k < |pairs| => (Bin(And, StateIs(m, 1), pairs[k].0), pairs[k].1))
  }

  lemma {:induction false} BusyChainIsFold(m: Machine, pairs: seq<(Expr, Expr)>, dflt: Expr, hold: Expr)
    ensures BusyChain(m, pairs, dflt, hold) == Fold(BusyPairs(m, pairs) + [(StateIs(m, 1), dflt)], hold)
    decreases |pairs|
  {
    var all := BusyPairs(m, pairs) + [(StateIs(m, 1), dflt)];
    if pairs == [] {
      assert all[1..] == [];
    } else {
      BusyChainIsFold(m, pairs[1..], dflt, hold);
      assert all[1..] == BusyPairs(m, pairs[1..]) + [(StateIs(m, 1), dflt)];
    }
  }

  /** The chain of a register is read as its next-state expression. */
  lemma RegNextDenotes(m: Machine, r: LoopReg, init: Text, pairs: seq<Clause>, dflt: Text)
    requires Denotes(init, r.init) && ClausesDenote(pairs, r.pairs) && Denotes(dflt, r.dflt)
    ensures Denotes(RegNextText(m, r.name, init, pairs, dflt), RegNext(m, r))
  {
    var segs := Segments(m, init, pairs, dflt);
    var busy := BusyPairs(m, r.pairs) + [(StateIs(m, 1), r.dflt)];
    var es := [(Load(m), r.init)] + busy;
    LoadDenotes(m);
    EqTextDenotes(m.state, 1);
    NameText(r.name);
    forall k | 0 <= k < |segs|
      ensures Denotes(segs[k].0, es[k].0) && Denotes(segs[k].1, es[k].1)
    {
      if 0 < k <= |pairs| {
        BusyAndDenotes(m, pairs[k - 1].0, r.pairs[k - 1].0);
      }
    }
    JoinDenotes(segs, [TId(r.name)], es, Var(r.name));
    BusyChainIsFold(m, r.pairs, r.dflt, Var(r.name));
    assert es[1..] == busy;
  }
}
