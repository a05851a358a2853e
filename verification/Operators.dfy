/**
  What the operators of the engine language mean: laws over defined operands that say nothing about
  how a result is computed, and how texts of names and operators are read.
  */
module Operators {
  import opened Expressions
  import opened Grammar
  import opened Splicing

  function Apply(op: BinOp, a: nat, b: nat): Value {
    ApplyBin(op, V(a), V(b))
  }

  // ---------------------------------------------------------------------------
  // Laws
  // ---------------------------------------------------------------------------

  function Plus(a: nat, k: nat): nat {
    a + k
  }

  /** Some natural takes `a` to `b`. */
  ghost predicate Reaches(a: nat, b: nat) {
    exists k: nat :: Plus(a, k) == b
  }

  lemma ReachesIff(a: nat, b: nat)
    ensures Reaches(a, b) <==> a <= b
  {
    if a <= b {
      assert Plus(a, b - a) == b;
    }
  }

  /** `<=` is 1 when some natural takes the one operand to the other, and else 0. */
  lemma AtMostLaw(a: nat, b: nat)
    ensures Apply(Le, a, b) == if Reaches(a, b) then V(1) else V(0)
    ensures Apply(Lt, a, b) == if Reaches(a + 1, b) then V(1) else V(0)
    ensures Apply(Eq, a, b) == if Reaches(a, b) && Reaches(b, a) then V(1) else V(0)
  {
    ReachesIff(a, b);
    ReachesIff(a + 1, b);
    ReachesIff(b, a);
  }

  /** Exactly one of `<`, `=` and `>` holds; the other three comparisons are their negations. */
  lemma OrderLaws(a: nat, b: nat)
    ensures (Apply(Lt, a, b), Apply(Eq, a, b), Apply(Gt, a, b)) in
      {(V(1), V(0), V(0)), (V(0), V(1), V(0)), (V(0), V(0), V(1))}
    ensures Apply(Le, a, b) == ApplyUn(Not, Apply(Gt, a, b)) && Apply(Ge, a, b) == ApplyUn(Not, Apply(Lt, a, b))
    ensures Apply(Ne, a, b) == ApplyUn(Not, Apply(Eq, a, b))
    ensures Apply(Gt, a, b) == Apply(Lt, b, a) && Apply(Ge, a, b) == Apply(Le, b, a)
  {
  }

  /** `s` is the sum of `a` and `b` but for at most one 2^32. */
  predicate Sums(a: nat, b: nat, s: nat) {
    s < 0x1_0000_0000 && (s == a + b || s + 0x1_0000_0000 == a + b)
  }

  /** Addition is exact but for at most one 2^32, and subtraction undoes it. */
  lemma AdditionLaws(a: nat, b: nat)
    requires a < TWO32 && b < TWO32
    ensures Apply(Add, a, b).V? && Sums(a, b, Apply(Add, a, b).n)
    ensures ApplyBin(Sub, Apply(Add, a, b), V(b)) == V(a)
    ensures b <= a ==> Apply(Sub, a, b) == V(a - b)
    ensures a < b ==> Apply(Sub, a, b) == V(0x1_0000_0000 + a - b)
    ensures ApplyUn(Neg, V(a)) == Apply(Sub, 0, a)
  {
  }

  /** `q` times `b` and `r` more is `a`, and `r` is less than `b`. */
  predicate Divided(a: nat, b: nat, q: nat, r: nat) {
    a == q * b + r && r < b
  }

  /** A product is exact modulo 2^32. */
  lemma ProductLaw(a: nat, b: nat)
    ensures exists m: nat, q: nat :: Apply(Mul, a, b) == V(m) && Divided(a * b, 0x1_0000_0000, q, m)
  {
    var ab := a * b;
    assert Apply(Mul, a, b) == V(ab % TWO32) && Divided(ab, 0x1_0000_0000, ab / TWO32, ab % TWO32);
  }

  /** Quotient and remainder of 32-bit operands; by 0 there is neither. */
  lemma DivisionLaws(a: nat, b: nat)
    requires a < TWO32 && b < TWO32
    ensures b > 0 ==> exists q: nat, r: nat :: Apply(Div, a, b) == V(q) && Apply(Mod, a, b) == V(r) && Divided(a, b, q, r)
    ensures Apply(Div, a, 0) == X && Apply(Mod, a, 0) == X
  {
    if b > 0 {
      var q, r := a / b, a % b;
      QuotientFits(a, b, q, r);
      SmallMod(q, TWO32);
      SmallMod(r, TWO32);
      assert Apply(Div, a, b) == V(q) && Apply(Mod, a, b) == V(r);
    }
  }

  lemma QuotientFits(a: nat, b: nat, q: nat, r: nat)
    requires b > 0 && q == a / b && r == a % b
    ensures Divided(a, b, q, r) && q <= a
  {
    assert q * b == q * (b - 1) + q;
    assert q * (b - 1) >= 0;
  }

  /** The connectives as truth tables; any defined value but 0 is true. */
  lemma TruthTables(p: nat, q: nat, a: nat)
    requires p > 0 && q > 0
    ensures Apply(Or, 0, 0) == V(0) && Apply(Or, p, a) == V(1) && Apply(Or, a, q) == V(1)
    ensures Apply(And, p, q) == V(1) && Apply(And, 0, a) == V(0) && Apply(And, a, 0) == V(0)
    ensures ApplyUn(Not, V(0)) == V(1) && ApplyUn(Not, V(p)) == V(0)
  {
  }

  /** X spreads through every operator and every condition. */
  lemma UndefinedSpreads(op: BinOp, uop: UnOp, v: Value, t: Value, f: Value)
    ensures ApplyBin(op, X, v) == X && ApplyBin(op, v, X) == X && ApplyUn(uop, X) == X && Choose(X, t, f) == X
  {
  }

  /** IF takes its THEN for a true condition and its ELSE for a false one. */
  lemma ConditionLaws(c: Expr, t: Expr, f: Expr, env: Env)
    ensures Eval(c, env) == X ==> Eval(Ite(c, t, f), env) == X
    ensures Eval(c, env) == V(0) ==> Eval(Ite(c, t, f), env) == Eval(f, env)
    ensures Eval(c, env).V? && Eval(c, env).n > 0 ==> Eval(Ite(c, t, f), env) == Eval(t, env)
  {
  }

  /** An index reads a cell of its memory, X outside it or under X. */
  lemma IndexLaws(x: Name, i: Expr, cells: seq<Value>, env: Env)
    requires x in env && env[x] == Memory(cells)
    ensures Eval(i, env) == X ==> Eval(Index(x, i), env) == X
    ensures forall k | 0 <= k < |cells| && Eval(i, env) == V(k) :: Eval(Index(x, i), env) == cells[k]
    ensures Eval(i, env).V? && Eval(i, env).n >= |cells| ==> Eval(Index(x, i), env) == X
  {
  }

  // ---------------------------------------------------------------------------
  // Operators in texts
  // ---------------------------------------------------------------------------

  /** How an operator is written. */
  function Written(op: BinOp): set<string> {
    match op
    case Or => {"\\/", "OR"} case And => {"/\\", "AND"}
    case Eq => {"="} case Ne => {"/="} case Le => {"<="} case Ge => {">="} case Lt => {"<"} case Gt => {">"}
    case Add => {"+"} case Sub => {"-"}
    case Mul => {"*"} case Div => {"/"} case Mod => {"%", "mod"}
  }

  /** How tightly an operator binds. */
  function Binds(op: BinOp): nat {
    match op
    case Or => 0
    case And => 1
    case Eq => 2 case Ne => 2 case Le => 2 case Ge => 2 case Lt => 2 case Gt => 2
    case Add => 3 case Sub => 3
    case Mul => 4 case Div => 4 case Mod => 4
  }

  predicate Stands(t: Token, op: BinOp) {
    !t.TId? && Spelling(t) in Written(op)
  }

  lemma StandsAt(t: Token, op: BinOp)
    requires Stands(t, op)
    ensures OpAt(Binds(op), t) == Some(op)
  {
    SpellingsDiffer(t);
  }

  /** Which operator each spelling is written for. */
  lemma SpellingsDiffer(t: Token)
    requires !t.TId?
    ensures Spelling(t) in {"\\/", "OR"} ==> t.TOrSym? || t.TOrWord?
    ensures Spelling(t) in {"/\\", "AND"} ==> t.TAndSym? || t.TAndWord?
    ensures Spelling(t) == "=" ==> t.TEq?
    ensures Spelling(t) == "/=" ==> t.TNe?
    ensures Spelling(t) == "<=" ==> t.TLe?
    ensures Spelling(t) == ">=" ==> t.TGe?
    ensures Spelling(t) == "<" ==> t.TLt?
    ensures Spelling(t) == ">" ==> t.TGt?
    ensures Spelling(t) == "+" ==> t.TPlus?
    ensures Spelling(t) == "-" ==> t.TMinus?
    ensures Spelling(t) == "*" ==> t.TStar?
    ensures Spelling(t) == "/" ==> t.TSlash?
    ensures Spelling(t) in {"%", "mod"} ==> t.TPercent? || t.TModWord?
  {
  }

  lemma OperatorDenotes(x: Name, t: Token, y: Name, op: BinOp)
    requires Stands(t, op)
    ensures DenotesAt(Binds(op), [TId(x), t, TId(y)], Bin(op, Var(x), Var(y)))
  {
    StandsAt(t, op);
    NameDenotes(x, Binds(op) + 1);
    NameDenotes(y, Binds(op) + 1);
    BinDenotes(Binds(op), [TId(x)], t, [TId(y)], Var(x), Var(y));
    assert [TId(x)] + [t] + [TId(y)] == [TId(x), t, TId(y)];
  }

  lemma Read(s: Text, e: Expr)
    requires Denotes(s, e)
    ensures Parse(s) == Good(e, |s|)
  {
    StrictIsTolerant(RExpr, s, 0);
  }

  /** A literal is evaluated to its number, `TRUE` to 1 and `FALSE` to 0. */
  lemma LiteralText(n: nat, env: Env)
    ensures Parse([TNum(n)]).Good? && EagerOutcome(Parse([TNum(n)]).e, env) == Val(V(n))
    ensures Parse([TTrue]).Good? && EagerOutcome(Parse([TTrue]).e, env) == Val(V(1))
    ensures Parse([TFalse]).Good? && EagerOutcome(Parse([TFalse]).e, env) == Val(V(0))
  {
    LiteralDenotes([TNum(n)], n);
    LiteralDenotes([TTrue], 1);
    LiteralDenotes([TFalse], 0);
  }

  lemma LiteralDenotes(s: Text, n: nat)
    requires s == [TNum(n)] || (s == [TTrue] && n == 1) || (s == [TFalse] && n == 0)
    ensures Parse(s) == Good(Const(n), 1)
  {
    PrimaryDenotes(s, Const(n), OR);
    OperandDenotes(s, Const(n), OR);
    Read(s, Const(n));
  }

  /** Two names around an operator are evaluated to what the operator makes of their values. */
  lemma OperatorText(x: Name, t: Token, y: Name, op: BinOp, env: Env)
    requires Stands(t, op)
    ensures Parse([TId(x), t, TId(y)]) == Good(Bin(op, Var(x), Var(y)), 3)
    ensures EagerOutcome(Parse([TId(x), t, TId(y)]).e, env) == Val(ApplyBin(op, Lookup(env, x), Lookup(env, y)))
  {
    var s, e := [TId(x), t, TId(y)], Bin(op, Var(x), Var(y));
    OperatorDenotes(x, t, y, op);
    OperandDenotes(s, e, Binds(op));
    Read(s, e);
    NamesOutcome(op, x, y, env);
  }

  lemma NamesOutcome(op: BinOp, x: Name, y: Name, env: Env)
    ensures EagerOutcome(Bin(op, Var(x), Var(y)), env) == Val(ApplyBin(op, Lookup(env, x), Lookup(env, y)))
  {
    var e := Bin(op, Var(x), Var(y));
    assert Raises(e, env) == (Raises(e.l, env) || Raises(e.r, env)) && !Raises(e.l, env) && !Raises(e.r, env);
    assert Eval(e, env) == ApplyBin(op, Eval(e.l, env), Eval(e.r, env));
  }

  /** `x <= y` is 1 when some natural takes the one value to the other, and else 0. */
  lemma AtMostText(x: Name, t: Token, y: Name, env: Env, a: nat, b: nat)
    requires !t.TId? && Spelling(t) == "<=" && Lookup(env, x) == V(a) && Lookup(env, y) == V(b)
    ensures var s := [TId(x), t, TId(y)];
      && Parse(s).Good?
      && EagerOutcome(Parse(s).e, env) == Val(if Reaches(a, b) then V(1) else V(0))
  {
    OperatorText(x, t, y, Le, env);
    AtMostLaw(a, b);
  }

  /** `NOT x` and `-x` */
  lemma UnaryText(x: Name, t: Token, uop: UnOp, env: Env)
    requires !t.TId? && Spelling(t) in (if uop == Not then {"~", "!", "NOT"} else {"-"})
    ensures Parse([t, TId(x)]) == Good(Un(uop, Var(x)), 2)
  {
    var s := [t, TId(x)];
    assert UnAt(t) == Some(uop);
    assert ParsePrimary(true, s, 1) == Good(Var(x), 2);
    assert ParseUnary(true, s, 1) == Good(Var(x), 2);
    assert DenotesAt(UNARY, s, Un(uop, Var(x)));
    OperandDenotes(s, Un(uop, Var(x)), UNARY);
    Read(s, Un(uop, Var(x)));
  }

  // ---------------------------------------------------------------------------
  // Precedence
  // ---------------------------------------------------------------------------

  /** Two operators in a row: the tighter one first, and from the left when they bind alike. */
  lemma TwoOperators(x: Name, s: Token, y: Name, t: Token, z: Name, f: BinOp, g: BinOp)
    requires Stands(s, f) && Stands(t, g) && !(Binds(f) == Binds(g) == 2)
    ensures Parse([TId(x), s, TId(y), t, TId(z)]) ==
      Good(if Binds(f) >= Binds(g) then Bin(g, Bin(f, Var(x), Var(y)), Var(z)) else Bin(f, Var(x), Bin(g, Var(y), Var(z))), 5)
  {
    if Binds(f) > Binds(g) {
      FirstTighter(x, s, y, t, z, f, g);
    } else if Binds(f) < Binds(g) {
      SecondTighter(x, s, y, t, z, f, g);
    } else {
      FromTheLeft(x, s, y, t, z, f, g);
    }
  }

  lemma FirstTighter(x: Name, s: Token, y: Name, t: Token, z: Name, f: BinOp, g: BinOp)
    requires Stands(s, f) && Stands(t, g) && Binds(f) > Binds(g)
    ensures Parse([TId(x), s, TId(y), t, TId(z)]) == Good(Bin(g, Bin(f, Var(x), Var(y)), Var(z)), 5)
  {
    var w := [TId(x), s, TId(y), t, TId(z)];
    OperatorDenotes(x, s, y, f);
    NameDenotes(z, Binds(g) + 1);
    assert w[..3] == [TId(x), s, TId(y)] && w[4..] == [TId(z)];
    Around(w, 3, g, Bin(f, Var(x), Var(y)), Binds(f), Var(z), Binds(g) + 1);
  }

  lemma SecondTighter(x: Name, s: Token, y: Name, t: Token, z: Name, f: BinOp, g: BinOp)
    requires Stands(s, f) && Stands(t, g) && Binds(f) < Binds(g)
    ensures Parse([TId(x), s, TId(y), t, TId(z)]) == Good(Bin(f, Var(x), Bin(g, Var(y), Var(z))), 5)
  {
    var w := [TId(x), s, TId(y), t, TId(z)];
    OperatorDenotes(y, t, z, g);
    NameDenotes(x, Binds(f) + 1);
    assert w[..1] == [TId(x)] && w[2..] == [TId(y), t, TId(z)];
    Around(w, 1, f, Var(x), Binds(f) + 1, Bin(g, Var(y), Var(z)), Binds(g));
  }

  /** Two operands that bind tighter than the operator between them. */
  lemma Around(w: Text, k: nat, op: BinOp, ea: Expr, la: nat, eb: Expr, lb: nat)
    requires k < |w| && Stands(w[k], op) && Binds(op) < la <= UNARY && Binds(op) < lb <= UNARY
    requires DenotesAt(la, w[..k], ea) && DenotesAt(lb, w[k + 1..], eb)
    ensures Parse(w) == Good(Bin(op, ea, eb), |w|)
  {
    var l := Binds(op);
    StandsAt(w[k], op);
    LevelDenotes(w[..k], ea, l + 1, la);
    LevelDenotes(w[k + 1..], eb, l + 1, lb);
    BinDenotes(l, w[..k], w[k], w[k + 1..], ea, eb);
    assert w == w[..k] + [w[k]] + w[k + 1..];
    OperandDenotes(w, Bin(op, ea, eb), l);
    Read(w, Bin(op, ea, eb));
  }

  /** A name in front of a token that does not bind tighter is the whole operand. */
  lemma NameAt(w: Text, i: nat, l: nat)
    requires i < |w| && w[i].TId? && l <= UNARY && (i + 1 < |w| ==> Breaks(l, w[i + 1]))
    ensures ParseLevel(true, w, i, l) == Good(Var(w[i].x), i + 1)
  {
    NameDenotes(w[i].x, l);
    assert w == w[..i] + ([w[i]] + w[i + 1..]);
    Embedded(RLevel(l), w[..i], [w[i]], w[i + 1..], Var(w[i].x));
  }

  lemma FromTheLeft(x: Name, s: Token, y: Name, t: Token, z: Name, f: BinOp, g: BinOp)
    requires Stands(s, f) && Stands(t, g) && Binds(f) == Binds(g) != 2
    ensures Parse([TId(x), s, TId(y), t, TId(z)]) == Good(Bin(g, Bin(f, Var(x), Var(y)), Var(z)), 5)
  {
    StandsAt(s, f);
    StandsAt(t, g);
    OperatorBreaks(s, Binds(f));
    OperatorBreaks(t, Binds(f));
    LeftToRight([TId(x), s, TId(y), t, TId(z)], Binds(f));
  }

  lemma OperatorBreaks(t: Token, l: nat)
    requires l < UNARY && OpAt(l, t).Some?
    ensures Breaks(l + 1, t)
  {
  }

  /** Name, operator, name, operator, name, the operators of one level. */
  lemma LeftToRight(w: Text, l: nat)
    requires |w| == 5 && w[0].TId? && w[2].TId? && w[4].TId? && l < UNARY && l != CMP
    requires OpAt(l, w[1]).Some? && OpAt(l, w[3]).Some? && Breaks(l + 1, w[1]) && Breaks(l + 1, w[3])
    ensures Parse(w) == Good(Bin(OpAt(l, w[3]).value, Bin(OpAt(l, w[1]).value, Var(w[0].x), Var(w[2].x)), Var(w[4].x)), 5)
  {
    NameAt(w, 0, l + 1);
    NameAt(w, 2, l + 1);
    NameAt(w, 4, l + 1);
    var inner := Bin(OpAt(l, w[1]).value, Var(w[0].x), Var(w[2].x));
    var e := Bin(OpAt(l, w[3]).value, inner, Var(w[4].x));
    RestOf(w, 3, l, inner, Var(w[4].x));
    RestOf(w, 1, l, Var(w[0].x), Var(w[2].x));
    assert DenotesAt(l, w, e);
    OperandDenotes(w, e, l);
    Read(w, e);
  }

  lemma RestOf(w: Text, i: nat, l: nat, a: Expr, b: Expr)
    requires i + 1 < |w| && l < UNARY && l != CMP && OpAt(l, w[i]).Some? && ParseLevel(true, w, i + 1, l + 1) == Good(b, i + 2)
    ensures ParseRest(true, w, i, l, a) == ParseRest(true, w, i + 2, l, Bin(OpAt(l, w[i]).value, a, b))
    ensures i + 2 == |w| ==> ParseRest(true, w, i, l, a) == Good(Bin(OpAt(l, w[i]).value, a, b), i + 2)
  {
  }
}
