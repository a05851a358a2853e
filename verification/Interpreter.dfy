/**
  `_Interp`: the reference evaluator of the engine-spec language. It walks the tokens with a
  cursor and computes values as it goes. Every method is proved against the pure parser and the
  meaning of expressions: the tokens it consumes do not depend on any value, and what it
  delivers is the value of the expression those tokens denote.
  */
module Interpreter {
  import opened Expressions
  import opened Grammar

  /** `r` and the cursor `j` are what evaluating the piece parsed as `p` must leave behind. */
  ghost predicate Delivers(p: Parsed, env: Env, r: Outcome, j: nat) {
    match p
    case Bad => r.IsFailure()
    case Good(e, n) => if Raises(e, env) then r == TypeError else r == Val(Eval(e, env)) && j == n
  }

  /** An exception in an operand is an exception of every chain the operand opens. */
  lemma {:induction false} RestRaises(s: Text, i: nat, lvl: nat, acc: Expr, env: Env)
    requires i <= |s| && lvl < UNARY && Raises(acc, env)
    ensures ParseRest(false, s, i, lvl, acc).Good? ==> Raises(ParseRest(false, s, i, lvl, acc).e, env)
    decreases |s| - i
  {
    if OpHere(s, i, lvl) && lvl != CMP {
      var p := ParseLevel(false, s, i + 1, lvl + 1);
      if p.Good? {
        RestRaises(s, p.next, lvl, Bin(OpAt(lvl, s[i]).value, acc, p.e), env);
      }
    }
  }

  /** The first operand at `i` raises, hence so does the whole chain of level `lvl` at `i`. */
  lemma FirstRaises(s: Text, i: nat, lvl: nat, env: Env)
    requires i <= |s| && lvl < UNARY
    ensures var p := ParseLevel(false, s, i, lvl + 1);
      var q := ParseLevel(false, s, i, lvl);
      p.Good? && q.Good? && Raises(p.e, env) ==> Raises(q.e, env)
  {
    var p := ParseLevel(false, s, i, lvl + 1);
    if p.Good? && Raises(p.e, env) {
      RestRaises(s, p.next, lvl, p.e, env);
    }
  }

  /** The operand after the operator at `i` raises, hence so does the rest of the chain. */
  lemma NextRaises(s: Text, i: nat, lvl: nat, acc: Expr, env: Env)
    requires lvl < UNARY && OpHere(s, i, lvl)
    ensures var p := ParseLevel(false, s, i + 1, lvl + 1);
      var q := ParseRest(false, s, i, lvl, acc);
      p.Good? && q.Good? && Raises(p.e, env) ==> Raises(q.e, env)
  {
    var p := ParseLevel(false, s, i + 1, lvl + 1);
    if p.Good? && Raises(p.e, env) && lvl != CMP {
      RestRaises(s, p.next, lvl, Bin(OpAt(lvl, s[i]).value, acc, p.e), env);
    }
  }

  /** One more operator of a chain that raises nothing. */
  lemma ChainStep(s: Text, i: nat, lvl: nat, acc: Expr, env: Env)
    requires lvl < UNARY && lvl != CMP && OpHere(s, i, lvl) && !Raises(acc, env)
    requires var p := ParseLevel(false, s, i + 1, lvl + 1); p.Good? && !Raises(p.e, env)
    ensures var p := ParseLevel(false, s, i + 1, lvl + 1);
      var op := OpAt(lvl, s[i]).value;
      var next := Bin(op, acc, p.e);
      && ParseRest(false, s, i, lvl, acc) == ParseRest(false, s, p.next, lvl, next)
      && Eval(next, env) == ApplyBin(op, Eval(acc, env), Eval(p.e, env))
      && !Raises(next, env)
  {
  }

  lemma UnaryRead(s: Text, i: nat)
    requires i <= |s|
    ensures ParseLevel(false, s, i, UNARY) ==
      if i < |s| && UnAt(s[i]).Some? then
        match ParseLevel(false, s, i + 1, UNARY)
        case Bad => Bad
        case Good(a, j) => Good(Un(UnAt(s[i]).value, a), j)
      else ParsePrimary(false, s, i)
  {
  }

  method OrValues(v: Value, w: Value) returns (r: Value)
    ensures r == ApplyBin(Or, v, w)
  {
    r := if v.X? || w.X? then X else if v.n != 0 || w.n != 0 then V(1) else V(0);
  }

  method AndValues(v: Value, w: Value) returns (r: Value)
    ensures r == ApplyBin(And, v, w)
  {
    r := if v.X? || w.X? then X else if v.n != 0 && w.n != 0 then V(1) else V(0);
  }

  method NotValue(v: Value) returns (r: Value)
    ensures r == ApplyUn(Not, v)
  {
    r := if v.X? then X else if v.n == 0 then V(1) else V(0);
  }

  method NegValue(v: Value) returns (r: Value)
    ensures r == ApplyUn(Neg, v)
  {
    r := if v.X? then X else V((0 - v.n) % TWO32);
  }

  method CmpValues(op: Token, v: Value, w: Value) returns (r: Value)
    requires OpAt(CMP, op).Some?
    ensures r == ApplyBin(OpAt(CMP, op).value, v, w)
  {
    if v.X? || w.X? {
      return X;
    }
    var holds :=
      if op == TEq then v.n == w.n
      else if op == TNe then v.n != w.n
      else if op == TLe then v.n <= w.n
      else if op == TGe then v.n >= w.n
      else if op == TLt then v.n < w.n
      else v.n > w.n;
    r := if holds then V(1) else V(0);
  }

  method AddValues(op: Token, v: Value, w: Value) returns (r: Value)
    requires OpAt(ADD, op).Some?
    ensures r == ApplyBin(OpAt(ADD, op).value, v, w)
  {
    r := if v.X? || w.X? then X else V((if op == TPlus then v.n + w.n else v.n - w.n) % TWO32);
  }

  method MulValues(op: Token, v: Value, w: Value) returns (r: Value)
    requires OpAt(MUL, op).Some?
    ensures r == ApplyBin(OpAt(MUL, op).value, v, w)
  {
    if v.X? || w.X? {
      return X;
    }
    if op == TStar {
      return V(v.n * w.n % TWO32);
    }
    if w.n == 0 {
      return X;
    }
    r := V((if op == TSlash then v.n / w.n else v.n % w.n) % TWO32);
  }

  class Interp {
    const toks: Text
    const env: Env
    var i: nat

    constructor (toks: Text, env: Env)
      ensures this.toks == toks && this.env == env && i == 0
    {
      this.toks := toks;
      this.env := env;
      i := 0;
    }

    method Expr() returns (r: Outcome)
      requires i <= |toks|
      modifies this
      ensures old(i) <= i <= |toks|
      ensures Delivers(ParseExpr(false, toks, old(i)), env, r, i)
      decreases |toks| - i, 8
    {
      if At(toks, i, TIf) {
        i := i + 1;
        var cond :- Expr();
        i := Skip(toks, i, TThen);
        var thenV :- Expr();
        i := Skip(toks, i, TElse);
        var elseV :- Expr();
        return Val(if cond.X? then X else if cond.n != 0 then thenV else elseV);
      }
      r := OrLevel();
    }

    method OrLevel() returns (r: Outcome)
      requires i <= |toks|
      modifies this
      ensures old(i) <= i <= |toks|
      ensures Delivers(ParseLevel(false, toks, old(i), OR), env, r, i)
      decreases |toks| - i, 7
    {
      FirstRaises(toks, i, OR, env);
      var v :- AndLevel();
      r := OrLoop(v, ParseLevel(false, toks, old(i), AND).e);
    }

    /** The loop of `OrLevel`: `v` is the value of `first`, the operands read so far. */
    method OrLoop(v0: Value, ghost first: Expr) returns (r: Outcome)
      requires i <= |toks| && !Raises(first, env) && v0 == Eval(first, env)
      modifies this
      ensures old(i) <= i <= |toks|
      ensures Delivers(ParseRest(false, toks, old(i), OR, first), env, r, i)
      decreases |toks| - i, 0
    {
      var v := v0;
      ghost var acc := first;
      while At(toks, i, TOrSym) || At(toks, i, TOrWord)
        invariant old(i) <= i <= |toks|
        invariant ParseRest(false, toks, i, OR, acc) == ParseRest(false, toks, old(i), OR, first)
        invariant !Raises(acc, env) && v == Eval(acc, env)
        decreases |toks| - i
      {
        ghost var k := i;
        NextRaises(toks, i, OR, acc, env);
        i := i + 1;
        var w :- AndLevel();
        ChainStep(toks, k, OR, acc, env);
        v := OrValues(v, w);
        acc := Bin(OpAt(OR, toks[k]).value, acc, ParseLevel(false, toks, k + 1, AND).e);
      }
      return Val(v);
    }

    method AndLevel() returns (r: Outcome)
      requires i <= |toks|
      modifies this
      ensures old(i) <= i <= |toks|
      ensures Delivers(ParseLevel(false, toks, old(i), AND), env, r, i)
      ensures r.Val? ==> old(i) < i
      decreases |toks| - i, 6
    {
      FirstRaises(toks, i, AND, env);
      var v :- CmpLevel();
      r := AndLoop(v, ParseLevel(false, toks, old(i), CMP).e);
    }

    /** The loop of `AndLevel`: `v` is the value of `first`, the operands read so far. */
    method AndLoop(v0: Value, ghost first: Expr) returns (r: Outcome)
      requires i <= |toks| && !Raises(first, env) && v0 == Eval(first, env)
      modifies this
      ensures old(i) <= i <= |toks|
      ensures Delivers(ParseRest(false, toks, old(i), AND, first), env, r, i)
      decreases |toks| - i, 0
    {
      var v := v0;
      ghost var acc := first;
      while At(toks, i, TAndSym) || At(toks, i, TAndWord)
        invariant old(i) <= i <= |toks|
        invariant ParseRest(false, toks, i, AND, acc) == ParseRest(false, toks, old(i), AND, first)
        invariant !Raises(acc, env) && v == Eval(acc, env)
        decreases |toks| - i
      {
        ghost var k := i;
        NextRaises(toks, i, AND, acc, env);
        i := i + 1;
        var w :- CmpLevel();
        ChainStep(toks, k, AND, acc, env);
        v := AndValues(v, w);
        acc := Bin(OpAt(AND, toks[k]).value, acc, ParseLevel(false, toks, k + 1, CMP).e);
      }
      return Val(v);
    }

    method CmpLevel() returns (r: Outcome)
      requires i <= |toks|
      modifies this
      ensures old(i) <= i <= |toks|
      ensures Delivers(ParseLevel(false, toks, old(i), CMP), env, r, i)
      ensures r.Val? ==> old(i) < i
      decreases |toks| - i, 5
    {
      var v :- AddLevel();
      if At(toks, i, TEq) || At(toks, i, TNe) || At(toks, i, TLe) || At(toks, i, TGe) || At(toks, i, TLt) || At(toks, i, TGt) {
        var op := toks[i];
        i := i + 1;
        var w :- AddLevel();
        v := CmpValues(op, v, w);
      }
      return Val(v);
    }

    method AddLevel() returns (r: Outcome)
      requires i <= |toks|
      modifies this
      ensures old(i) <= i <= |toks|
      ensures Delivers(ParseLevel(false, toks, old(i), ADD), env, r, i)
      ensures r.Val? ==> old(i) < i
      decreases |toks| - i, 4
    {
      FirstRaises(toks, i, ADD, env);
      var v :- MulLevel();
      r := AddLoop(v, ParseLevel(false, toks, old(i), MUL).e);
    }

    /** The loop of `AddLevel`: `v` is the value of `first`, the operands read so far. */
    method AddLoop(v0: Value, ghost first: Expr) returns (r: Outcome)
      requires i <= |toks| && !Raises(first, env) && v0 == Eval(first, env)
      modifies this
      ensures old(i) <= i <= |toks|
      ensures Delivers(ParseRest(false, toks, old(i), ADD, first), env, r, i)
      decreases |toks| - i, 0
    {
      var v := v0;
      ghost var acc := first;
      while At(toks, i, TPlus) || At(toks, i, TMinus)
        invariant old(i) <= i <= |toks|
        invariant ParseRest(false, toks, i, ADD, acc) == ParseRest(false, toks, old(i), ADD, first)
        invariant !Raises(acc, env) && v == Eval(acc, env)
        decreases |toks| - i
      {
        ghost var k := i;
        var op := toks[i];
        NextRaises(toks, i, ADD, acc, env);
        i := i + 1;
        var w :- MulLevel();
        ChainStep(toks, k, ADD, acc, env);
        v := AddValues(op, v, w);
        acc := Bin(OpAt(ADD, toks[k]).value, acc, ParseLevel(false, toks, k + 1, MUL).e);
      }
      return Val(v);
    }

    method MulLevel() returns (r: Outcome)
      requires i <= |toks|
      modifies this
      ensures old(i) <= i <= |toks|
      ensures Delivers(ParseLevel(false, toks, old(i), MUL), env, r, i)
      ensures r.Val? ==> old(i) < i
      decreases |toks| - i, 3
    {
      FirstRaises(toks, i, MUL, env);
      var v :- Unary();
      r := MulLoop(v, ParseLevel(false, toks, old(i), UNARY).e);
    }

    /** The loop of `MulLevel`: `v` is the value of `first`, the operands read so far. */
    method MulLoop(v0: Value, ghost first: Expr) returns (r: Outcome)
      requires i <= |toks| && !Raises(first, env) && v0 == Eval(first, env)
      modifies this
      ensures old(i) <= i <= |toks|
      ensures Delivers(ParseRest(false, toks, old(i), MUL, first), env, r, i)
      decreases |toks| - i, 0
    {
      var v := v0;
      ghost var acc := first;
      while At(toks, i, TStar) || At(toks, i, TSlash) || At(toks, i, TPercent) || At(toks, i, TModWord)
        invariant old(i) <= i <= |toks|
        invariant ParseRest(false, toks, i, MUL, acc) == ParseRest(false, toks, old(i), MUL, first)
        invariant !Raises(acc, env) && v == Eval(acc, env)
        decreases |toks| - i
      {
        ghost var k := i;
        var op := toks[i];
        NextRaises(toks, i, MUL, acc, env);
        i := i + 1;
        var w :- Unary();
        ChainStep(toks, k, MUL, acc, env);
        v := MulValues(op, v, w);
        acc := Bin(OpAt(MUL, toks[k]).value, acc, ParseLevel(false, toks, k + 1, UNARY).e);
      }
      return Val(v);
    }

    method Unary() returns (r: Outcome)
      requires i <= |toks|
      modifies this
      ensures old(i) <= i <= |toks|
      ensures Delivers(ParseLevel(false, toks, old(i), UNARY), env, r, i)
      ensures r.Val? ==> old(i) < i
      decreases |toks| - i, 2
    {
      UnaryRead(toks, i);
      if At(toks, i, TTilde) || At(toks, i, TBang) || At(toks, i, TNotWord) {
        i := i + 1;
        var v :- Unary();
        v := NotValue(v);
        return Val(v);
      }
      if At(toks, i, TMinus) {
        i := i + 1;
        var v :- Unary();
        v := NegValue(v);
        return Val(v);
      }
      r := Primary();
    }

    method Primary() returns (r: Outcome)
      requires i <= |toks|
      modifies this
      ensures old(i) <= i <= |toks|
      ensures Delivers(ParsePrimary(false, toks, old(i)), env, r, i)
      ensures r.Val? ==> old(i) < i
      decreases |toks| - i, 1
    {
      if i == |toks| {
        return IndexError;
      }
      var t := toks[i];
      i := i + 1;
      if t == TLPar {
        var v :- Expr();
        i := Skip(toks, i, TRPar);
        return Val(v);
      }
      if t.TNum? {
        return Val(V(t.n));
      }
      if t == TTrue || t == TFalse {
        return Val(if t == TTrue then V(1) else V(0));
      }
      assert ParsePrimary(false, toks, old(i)) == ParseName(false, toks, old(i));
      r := Identifier(t);
    }

    /** The rest of an operand that starts with the name token `t`: a name, optionally indexed. */
    method Identifier(t: Token) returns (r: Outcome)
      requires 0 < i <= |toks| && toks[i - 1] == t
      modifies this
      ensures old(i) <= i <= |toks|
      ensures Delivers(ParseName(false, toks, old(i) - 1), env, r, i)
      decreases |toks| - i, 10
    {
      if At(toks, i, TLBrk) {
        i := i + 1;
        var idx :- Expr();
        i := Skip(toks, i, TRBrk);
        r := ReadMemory(Spelling(t), idx);
      } else {
        r := Val(Lookup(env, Spelling(t)));
      }
    }

    method ReadMemory(name: Name, idx: Value) returns (r: Outcome)
      ensures r == if BoundScalar(env, name) && idx.V? then TypeError else Val(Cell(CellsOf(env, name), idx))
    {
      if name !in env || env[name] == Scalar(X) || idx.X? {
        return Val(X);
      }
      match env[name]
      case Scalar(_) => return TypeError;
      case Memory(cells) => return Val(if idx.n < |cells| then cells[idx.n] else X);
    }
  }

  /** `_eval`: the outcome is settled by the one expression the tokens denote. */
  method EvalText(s: Text, env: Env) returns (r: Outcome)
    ensures Parse(s).Good? ==> r == EagerOutcome(Parse(s).e, env)
    ensures Parse(s).Bad? ==> r == IndexError || r == TypeError
  {
    var interp := new Interp(s, env);
    r := interp.Expr();
  }
}
