/**
  The native expression core: a parser that fills a flat pool of nodes once, and an evaluator
  that walks the pool against slot-indexed values. Proved: the pool denotes exactly the
  expression the interpreter reads from the same tokens, both run out of tokens on the same
  inputs, and evaluating the pool gives the interpreter's value.
  */
module NativeExpressions {
  import opened Expressions
  import opened Grammar

  /** Children are indices into the pool, names are slots of the symbol table. */
  datatype Node =
    | NConst(lit: nat)
    | NVar(slot: nat)
    | NIndex(slot: nat, a: nat)
    | NIf(a: nat, b: nat, c: nat)
    | NBin(op: BinOp, a: nat, b: nat)
    | NUn(uop: UnOp, a: nat)

  predicate NodeOk(nd: Node, k: nat, slots: nat) {
    match nd
    case NConst(_) => true
    case NVar(s) => s < slots
    case NIndex(s, a) => s < slots && a < k
    case NIf(a, b, c) => a < k && b < k && c < k
    case NBin(_, a, b) => a < k && b < k
    case NUn(_, a) => a < k
  }

  predicate PoolOk(nodes: seq<Node>, slots: nat) {
    forall k | 0 <= k < |nodes| :: NodeOk(nodes[k], k, slots)
  }

  /** The expression a node of the pool denotes. */
  ghost function Decode(nodes: seq<Node>, names: seq<Name>, k: nat): Expr
    requires PoolOk(nodes, |names|) && k < |nodes|
    decreases k
  {
    match nodes[k]
    case NConst(n) => Const(n)
    case NVar(s) => Var(names[s])
    case NIndex(s, a) => Index(names[s], Decode(nodes, names, a))
    case NIf(a, b, c) => Ite(Decode(nodes, names, a), Decode(nodes, names, b), Decode(nodes, names, c))
    case NBin(op, a, b) => Bin(op, Decode(nodes, names, a), Decode(nodes, names, b))
    case NUn(op, a) => Un(op, Decode(nodes, names, a))
  }

  /** Growing the pool or the symbol table leaves every node's meaning alone. */
  lemma {:induction false} DecodeGrows(nodes: seq<Node>, names: seq<Name>, more: seq<Node>, names': seq<Name>, k: nat)
    requires nodes <= more && names <= names'
    requires PoolOk(nodes, |names|) && PoolOk(more, |names'|) && k < |nodes|
    ensures Decode(more, names', k) == Decode(nodes, names, k)
    decreases k
  {
    assert NodeOk(nodes[k], k, |names|);
    match nodes[k]
    case NConst(_) =>
    case NVar(_) =>
    case NIndex(_, a) => DecodeGrows(nodes, names, more, names', a);
    case NIf(a, b, c) =>
      DecodeGrows(nodes, names, more, names', a);
      DecodeGrows(nodes, names, more, names', b);
      DecodeGrows(nodes, names, more, names', c);
    case NBin(_, a, b) =>
      DecodeGrows(nodes, names, more, names', a);
      DecodeGrows(nodes, names, more, names', b);
    case NUn(_, a) => DecodeGrows(nodes, names, more, names', a);
  }

  // ---------------------------------------------------------------------------
  // Symbol table: identifier -> slot, in insertion order
  // ---------------------------------------------------------------------------

  datatype SymTab = SymTab(index: map<Name, nat>, names: seq<Name>) {
    ghost predicate Valid() {
      && (forall s | 0 <= s < |names| :: names[s] in index && index[names[s]] == s)
      && (forall x | x in index :: index[x] < |names| && names[index[x]] == x)
    }

    function Intern(x: Name): (r: (SymTab, nat))
      requires Valid()
      ensures r.0.Valid() && names <= r.0.names
      ensures r.1 < |r.0.names| && r.0.names[r.1] == x
      ensures forall y :: y in r.0.names <==> y in names || y == x
    {
      if x in index then (this, index[x])
      else (SymTab(index[x := |names|], names + [x]), |names|)
    }
  }

  /** Node `k` of a sound pool denotes `e`. */
  ghost predicate Built(nodes: seq<Node>, syms: SymTab, k: nat, e: Expr) {
    PoolOk(nodes, |syms.names|) && k < |nodes| && Decode(nodes, syms.names, k) == e
  }

  ghost predicate Grown(n0: seq<Node>, s0: SymTab, n1: seq<Node>, s1: SymTab) {
    n0 <= n1 && s0.names <= s1.names && s1.Valid() && PoolOk(n1, |s1.names|)
  }

  lemma BuiltGrows(n0: seq<Node>, s0: SymTab, n1: seq<Node>, s1: SymTab, k: nat, e: Expr)
    requires Built(n0, s0, k, e) && Grown(n0, s0, n1, s1)
    ensures Built(n1, s1, k, e)
  {
    DecodeGrows(n0, s0.names, n1, s1.names, k);
  }

  /** The expression of a node whose operands are built. */
  lemma BuiltNode(nodes: seq<Node>, syms: SymTab, nd: Node)
    requires PoolOk(nodes, |syms.names|) && NodeOk(nd, |nodes|, |syms.names|)
    ensures PoolOk(nodes + [nd], |syms.names|)
    ensures forall k, e | Built(nodes, syms, k, e) :: Built(nodes + [nd], syms, k, e)
    ensures forall e, a | nd == NUn(e, a) :: Built(nodes + [nd], syms, |nodes|, Un(e, Decode(nodes, syms.names, a)))
    ensures forall o, a, b | nd == NBin(o, a, b) ::
      Built(nodes + [nd], syms, |nodes|, Bin(o, Decode(nodes, syms.names, a), Decode(nodes, syms.names, b)))
  {
    forall k, e | Built(nodes, syms, k, e)
      ensures Built(nodes + [nd], syms, k, e)
    {
      DecodeGrows(nodes, syms.names, nodes + [nd], syms.names, k);
    }
    if nd.NUn? {
      DecodeGrows(nodes, syms.names, nodes + [nd], syms.names, nd.a);
    }
    if nd.NBin? {
      DecodeGrows(nodes, syms.names, nodes + [nd], syms.names, nd.a);
      DecodeGrows(nodes, syms.names, nodes + [nd], syms.names, nd.b);
    }
  }

  // ---------------------------------------------------------------------------
  // The parser
  // ---------------------------------------------------------------------------

  /** The parser's answer `r` at cursor `j` builds what the pure parser reads. */
  ghost predicate Answers(p: Parsed, nodes: seq<Node>, syms: SymTab, r: Option<nat>, j: nat) {
    match p
    case Bad => r.None?
    case Good(e, n) => r.Some? && Built(nodes, syms, r.value, e) && j == n
  }

  /** What is read from a conditional's ELSE on, its first two operands known. */
  function ElseRead(s: Text, i: nat, c: Expr, t: Expr): Parsed
    requires i <= |s|
  {
    match ParseExpr(false, s, Skip(s, i, TElse))
    case Bad => Bad
    case Good(f, m) => Good(Ite(c, t, f), m)
  }

  /** What is read from a conditional's THEN on, its first operand known. */
  function ThenRead(s: Text, i: nat, c: Expr): Parsed
    requires i <= |s|
  {
    match ParseExpr(false, s, Skip(s, i, TThen))
    case Bad => Bad
    case Good(t, k) => ElseRead(s, k, c, t)
  }

  lemma ConditionalRead(s: Text, i: nat)
    requires i <= |s| && At(s, i, TIf)
    ensures ParseExpr(false, s, i) ==
      match ParseExpr(false, s, i + 1) case Bad => Bad case Good(c, j) => ThenRead(s, j, c)
  {
  }

  class Parser {
    const toks: Text
    var i: nat
    var syms: SymTab
    var nodes: seq<Node>

    constructor (toks: Text, syms: SymTab)
      requires syms.Valid()
      ensures this.toks == toks && i == 0 && this.syms == syms && nodes == []
      ensures Valid()
    {
      this.toks := toks;
      this.i := 0;
      this.syms := syms;
      this.nodes := [];
    }

    ghost predicate Valid()
      reads this
    {
      i <= |toks| && syms.Valid() && PoolOk(nodes, |syms.names|)
    }

    method Push(nd: Node) returns (k: nat)
      requires Valid() && NodeOk(nd, |nodes|, |syms.names|)
      modifies this`nodes
      ensures Valid() && nodes == old(nodes) + [nd] && k == |old(nodes)|
      ensures forall j, e | Built(old(nodes), syms, j, e) :: Built(nodes, syms, j, e)
      ensures forall o, a | nd == NUn(o, a) ::
        Built(nodes, syms, k, Un(o, Decode(old(nodes), syms.names, a)))
      ensures forall o, a, b | nd == NBin(o, a, b) ::
        Built(nodes, syms, k, Bin(o, Decode(old(nodes), syms.names, a), Decode(old(nodes), syms.names, b)))
    {
      BuiltNode(nodes, syms, nd);
      k := |nodes|;
      nodes := nodes + [nd];
    }

    method Expr() returns (r: Option<nat>)
      requires Valid()
      modifies this
      ensures Valid() && old(i) <= i && Grown(old(nodes), old(syms), nodes, syms)
      ensures Answers(ParseExpr(false, toks, old(i)), nodes, syms, r, i)
      decreases |toks| - i, 9
    {
      if At(toks, i, TIf) {
        r := Conditional();
      } else {
        r := Level(OR);
      }
    }

    /** The node of a conditional over three nodes. */
    method PushIf(c: nat, t: nat, f: nat, ghost ec: Expr, ghost et: Expr, ghost ef: Expr) returns (k: nat)
      requires Valid() && Built(nodes, syms, c, ec) && Built(nodes, syms, t, et) && Built(nodes, syms, f, ef)
      modifies this`nodes
      ensures Valid() && Grown(old(nodes), syms, nodes, syms) && Built(nodes, syms, k, Ite(ec, et, ef))
    {
      BuiltNode(nodes, syms, NIf(c, t, f));
      k := |nodes|;
      nodes := nodes + [NIf(c, t, f)];
    }

    /** `ELSE` and the third operand of a conditional, the first two already built. */
    method ElseArm(c: nat, t: nat, ghost ec: Expr, ghost et: Expr) returns (r: Option<nat>)
      requires Valid() && Built(nodes, syms, c, ec) && Built(nodes, syms, t, et)
      modifies this
      ensures Valid() && old(i) <= i && Grown(old(nodes), old(syms), nodes, syms)
      ensures Answers(ElseRead(toks, old(i), ec, et), nodes, syms, r, i)
      decreases |toks| - i, 10
    {
      ghost var n1, s1 := nodes, syms;
      i := Skip(toks, i, TElse);
      var f := Expr();
      if f.None? {
        return None;
      }
      BuiltGrows(n1, s1, nodes, syms, c, ec);
      BuiltGrows(n1, s1, nodes, syms, t, et);
      var k := PushIf(c, t, f.value, ec, et, Decode(nodes, syms.names, f.value));
      r := Some(k);
    }

    /** `THEN`, the second operand, and the rest. */
    method ThenArm(c: nat, ghost ec: Expr) returns (r: Option<nat>)
      requires Valid() && Built(nodes, syms, c, ec)
      modifies this
      ensures Valid() && old(i) <= i && Grown(old(nodes), old(syms), nodes, syms)
      ensures Answers(ThenRead(toks, old(i), ec), nodes, syms, r, i)
      decreases |toks| - i, 11
    {
      ghost var n1, s1 := nodes, syms;
      i := Skip(toks, i, TThen);
      var t := Expr();
      if t.None? {
        return None;
      }
      BuiltGrows(n1, s1, nodes, syms, c, ec);
      r := ElseArm(c, t.value, ec, Decode(nodes, syms.names, t.value));
    }

    /** The branch of `parse_expr` behind `IF`. */
    method Conditional() returns (r: Option<nat>)
      requires Valid() && At(toks, i, TIf)
      modifies this
      ensures Valid() && old(i) <= i && Grown(old(nodes), old(syms), nodes, syms)
      ensures Answers(ParseExpr(false, toks, old(i)), nodes, syms, r, i)
      decreases |toks| - i, 8
    {
      ConditionalRead(toks, i);
      i := i + 1;
      var c := Expr();
      if c.None? {
        return None;
      }
      r := ThenArm(c.value, Decode(nodes, syms.names, c.value));
    }

    /** `or_`, `and_`, `cmp`, `addsub` and `muldiv`: one operand, then the operators of the level. */
    method Level(lvl: nat) returns (r: Option<nat>)
      requires Valid() && lvl < UNARY
      modifies this
      ensures Valid() && old(i) <= i && Grown(old(nodes), old(syms), nodes, syms)
      ensures Answers(ParseLevel(false, toks, old(i), lvl), nodes, syms, r, i)
      decreases |toks| - i, 7 - lvl, 0
    {
      r := Operand(lvl + 1);
      if r.None? {
        return;
      }
      r := Operators(lvl, r.value, Decode(nodes, syms.names, r.value));
    }

    method Operand(lvl: nat) returns (r: Option<nat>)
      requires Valid() && lvl <= UNARY
      modifies this
      ensures Valid() && old(i) <= i && Grown(old(nodes), old(syms), nodes, syms)
      ensures Answers(ParseLevel(false, toks, old(i), lvl), nodes, syms, r, i)
      decreases |toks| - i, 7 - lvl, 1
    {
      if lvl == UNARY {
        r := Unary();
      } else {
        r := Level(lvl);
      }
    }

    method Operators(lvl: nat, v0: nat, ghost first: Expr) returns (r: Option<nat>)
      requires Valid() && lvl < UNARY && Built(nodes, syms, v0, first)
      modifies this
      ensures Valid() && old(i) <= i && Grown(old(nodes), old(syms), nodes, syms)
      ensures Answers(ParseRest(false, toks, old(i), lvl, first), nodes, syms, r, i)
      decreases |toks| - i, 0
    {
      var v := v0;
      ghost var acc := first;
      while OpHere(toks, i, lvl)
        invariant Valid() && old(i) <= i && Grown(old(nodes), old(syms), nodes, syms)
        invariant ParseRest(false, toks, i, lvl, acc) == ParseRest(false, toks, old(i), lvl, first)
        invariant Built(nodes, syms, v, acc)
        decreases |toks| - i
      {
        var op := OpAt(lvl, toks[i]).value;
        ghost var n1, s1 := nodes, syms;
        i := i + 1;
        var w := Operand(lvl + 1);
        if w.None? {
          return None;
        }
        BuiltGrows(n1, s1, nodes, syms, v, acc);
        acc := Bin(op, acc, Decode(nodes, syms.names, w.value));
        v := Push(NBin(op, v, w.value));
        if lvl == CMP {
          return Some(v);
        }
      }
      return Some(v);
    }

    method Unary() returns (r: Option<nat>)
      requires Valid()
      modifies this
      ensures Valid() && old(i) <= i && Grown(old(nodes), old(syms), nodes, syms)
      ensures Answers(ParseUnary(false, toks, old(i)), nodes, syms, r, i)
      decreases |toks| - i, 1
    {
      if i < |toks| && UnAt(toks[i]).Some? {
        var op := UnAt(toks[i]).value;
        i := i + 1;
        r := Unary();
        if r.None? {
          return;
        }
        var k := Push(NUn(op, r.value));
        return Some(k);
      }
      r := Primary();
    }

    method Primary() returns (r: Option<nat>)
      requires Valid()
      modifies this
      ensures Valid() && old(i) <= i && Grown(old(nodes), old(syms), nodes, syms)
      ensures Answers(ParsePrimary(false, toks, old(i)), nodes, syms, r, i)
      decreases |toks| - i, 0
    {
      if i == |toks| {
        return None;
      }
      var t := toks[i];
      i := i + 1;
      if t == TLPar {
        r := Expr();
        if r.Some? {
          i := Skip(toks, i, TRPar);
        }
        return;
      }
      if t.TNum? || t == TTrue || t == TFalse {
        var k := Push(NConst(if t.TNum? then t.n else if t == TTrue then 1 else 0));
        return Some(k);
      }
      assert ParsePrimary(false, toks, old(i)) == ParseName(false, toks, old(i));
      r := Identifier(t);
    }

    /** The rest of an operand that starts with the name token `t`. */
    method Identifier(t: Token) returns (r: Option<nat>)
      requires Valid() && 0 < i && toks[i - 1] == t
      modifies this
      ensures Valid() && old(i) <= i && Grown(old(nodes), old(syms), nodes, syms)
      ensures Answers(ParseName(false, toks, old(i) - 1), nodes, syms, r, i)
      decreases |toks| - i, 10
    {
      if At(toks, i, TLBrk) {
        i := i + 1;
        var idx := Expr();
        if idx.None? {
          return None;
        }
        i := Skip(toks, i, TRBrk);
        var k := Named(Spelling(t), idx);
        return Some(k);
      }
      var k := Named(Spelling(t), None);
      return Some(k);
    }

    /** Intern a name and add the node that reads it, plainly or at an index. */
    method Named(name: Name, idx: Option<nat>) returns (k: nat)
      requires Valid() && (idx.Some? ==> idx.value < |nodes|)
      modifies this`syms, this`nodes
      ensures Valid() && Grown(old(nodes), old(syms), nodes, syms)
      ensures Built(nodes, syms, k,
        if idx.Some? then Index(name, Decode(old(nodes), old(syms).names, idx.value)) else Var(name))
    {
      ghost var n1, s1 := nodes, syms;
      var (syms', slot) := syms.Intern(name);
      syms := syms';
      if idx.Some? {
        BuiltGrows(n1, s1, nodes, syms, idx.value, Decode(n1, s1.names, idx.value));
        ghost var n2 := nodes;
        k := Push(NIndex(slot, idx.value));
        assert Built(n2, syms, idx.value, Decode(n1, s1.names, idx.value));
      } else {
        k := Push(NVar(slot));
      }
    }
  }

  datatype Compiled = Compiled(nodes: seq<Node>, root: nat)

  /** The compiled expression means `e`. */
  ghost predicate Means(c: Compiled, names: seq<Name>, e: Expr) {
    PoolOk(c.nodes, |names|) && c.root < |c.nodes| && Decode(c.nodes, names, c.root) == e
  }

  lemma MeansGrows(c: Compiled, names: seq<Name>, names': seq<Name>, e: Expr)
    requires Means(c, names, e) && names <= names'
    ensures Means(c, names', e)
  {
    assert forall k | 0 <= k < |c.nodes| :: NodeOk(c.nodes[k], k, |names|) ==> NodeOk(c.nodes[k], k, |names'|);
    DecodeGrows(c.nodes, names, c.nodes, names', c.root);
  }

  /**
    `compile_expr`: fails on exactly the texts the interpreter runs out of, and otherwise means
    what the interpreter reads, trailing tokens ignored.
    */
  method CompileExpr(s: Text, syms: SymTab) returns (r: Option<Compiled>, syms': SymTab)
    requires syms.Valid()
    ensures syms'.Valid() && syms.names <= syms'.names
    ensures r.None? <==> Parse(s).Bad?
    ensures r.Some? ==> Means(r.value, syms'.names, Parse(s).e)
  {
    var p := new Parser(s, syms);
    var root := p.Expr();
    syms' := p.syms;
    r := if root.Some? then Some(Compiled(p.nodes, root.value)) else None;
  }

  // ---------------------------------------------------------------------------
  // The evaluator
  // ---------------------------------------------------------------------------

  const TWO64: nat := 0x1_0000_0000_0000_0000

  datatype SlotEnv = SlotEnv(scalars: seq<Value>, arrays: seq<Option<seq<Value>>>)

  predicate SlotsFor(senv: SlotEnv, n: nat) {
    |senv.scalars| >= n && |senv.arrays| >= n
  }

  /** Unsigned 64-bit arithmetic, then the low 32 bits. */
  function Wrap64(n: int): nat {
    n % TWO64 % TWO32
  }

  lemma LowBits(n: int, k: int, t: nat)
    requires n == TWO32 * k + t && t < TWO32
    ensures n % TWO32 == t
  {
  }

  /** The low 32 bits of a 64-bit result are the low 32 bits of the exact one. */
  lemma Wrap64IsWrap(n: int)
    ensures Wrap64(n) == Wrap(n)
  {
    var q, r := n / TWO64, n % TWO64;
    var p, t := r / TWO32, r % TWO32;
    LowBits(n, TWO32 * q + p, t);
  }

  function NativeBin(op: BinOp, l: Value, r: Value): Value {
    if l.X? || r.X? then X
    else if op.Add? then V(Wrap64(l.n + r.n))
    else if op.Sub? then V(Wrap64(l.n - r.n))
    else if op.Mul? then V(Wrap64(l.n * r.n))
    else ApplyBin(op, l, r)
  }

  function NativeUn(op: UnOp, a: Value): Value {
    if a.X? then X else if op.Neg? then V(Wrap64(0 - a.n)) else ApplyUn(op, a)
  }

  lemma NativeOps(op: BinOp, l: Value, r: Value, uop: UnOp)
    ensures NativeBin(op, l, r) == ApplyBin(op, l, r)
    ensures NativeUn(uop, l) == ApplyUn(uop, l)
  {
    if l.V? {
      Wrap64IsWrap(0 - l.n);
      if r.V? {
        Wrap64IsWrap(l.n + r.n);
        Wrap64IsWrap(l.n - r.n);
        Wrap64IsWrap(l.n * r.n);
      }
    }
  }

  /** `eval_node`: the taken branch only; the base of an index is tested before the index. */
  function EvalNode(nodes: seq<Node>, k: nat, senv: SlotEnv, slots: nat): Outcome
    requires PoolOk(nodes, slots) && k < |nodes| && SlotsFor(senv, slots)
    decreases k
  {
    assert NodeOk(nodes[k], k, slots);
    match nodes[k]
    case NConst(n) => Val(V(n))
    case NVar(s) => Val(senv.scalars[s])
    case NIndex(s, a) =>
      if senv.arrays[s].None? && senv.scalars[s].X? then Val(X)
      else
        var idx :- EvalNode(nodes, a, senv, slots);
        if idx.X? then Val(X)
        else if senv.arrays[s].None? then TypeError
        else Val(Cell(senv.arrays[s].value, idx))
    case NIf(a, b, c) =>
      var v :- EvalNode(nodes, a, senv, slots);
      if v.X? then Val(X)
      else if v.n != 0 then EvalNode(nodes, b, senv, slots)
      else EvalNode(nodes, c, senv, slots)
    case NBin(op, a, b) =>
      var l :- EvalNode(nodes, a, senv, slots);
      var r :- EvalNode(nodes, b, senv, slots);
      Val(NativeBin(op, l, r))
    case NUn(op, a) =>
      var v :- EvalNode(nodes, a, senv, slots);
      Val(NativeUn(op, v))
  }

  /** Every slot holds what the named environment binds. */
  ghost predicate Represents(senv: SlotEnv, names: seq<Name>, env: Env) {
    && SlotsFor(senv, |names|)
    && (forall s | 0 <= s < |names| :: senv.scalars[s] == Lookup(env, names[s]))
    && (forall s | 0 <= s < |names| ::
          senv.arrays[s] == if names[s] in env && env[names[s]].Memory? then Some(env[names[s]].cells) else None)
  }

  /** The pool evaluates to the value of the expression it denotes, or raises as lazily reading it does. */
  lemma {:induction false} EvalNodeIsEval(nodes: seq<Node>, names: seq<Name>, k: nat, senv: SlotEnv, env: Env)
    requires PoolOk(nodes, |names|) && k < |nodes| && Represents(senv, names, env)
    ensures EvalNode(nodes, k, senv, |names|) == LazyOutcome(Decode(nodes, names, k), env)
    decreases k
  {
    assert NodeOk(nodes[k], k, |names|);
    match nodes[k]
    case NConst(_) =>
    case NVar(_) =>
    case NIndex(s, a) => EvalNodeIsEval(nodes, names, a, senv, env);
    case NIf(a, b, c) =>
      EvalNodeIsEval(nodes, names, a, senv, env);
      EvalNodeIsEval(nodes, names, b, senv, env);
      EvalNodeIsEval(nodes, names, c, senv, env);
    case NBin(op, a, b) =>
      EvalNodeIsEval(nodes, names, a, senv, env);
      EvalNodeIsEval(nodes, names, b, senv, env);
      NativeOps(op, Eval(Decode(nodes, names, a), env), Eval(Decode(nodes, names, b), env), Not);
    case NUn(op, a) =>
      EvalNodeIsEval(nodes, names, a, senv, env);
      NativeOps(Or, Eval(Decode(nodes, names, a), env), X, op);
  }

  /**
    Parsing once and evaluating later is parsing while evaluating: a compiled text evaluates to
    the value the interpreter delivers whenever the interpreter delivers one, and the compiled
    side raises only where the interpreter does.
    */
  lemma CompiledIsInterpreted(c: Compiled, names: seq<Name>, s: Text, senv: SlotEnv, env: Env)
    requires Parse(s).Good? && Means(c, names, Parse(s).e) && Represents(senv, names, env)
    ensures !Raises(Parse(s).e, env) ==> EvalNode(c.nodes, c.root, senv, |names|) == Val(Eval(Parse(s).e, env))
    ensures EvalNode(c.nodes, c.root, senv, |names|) == TypeError ==> Raises(Parse(s).e, env)
  {
    EvalNodeIsEval(c.nodes, names, c.root, senv, env);
    LazyRaisesImpliesRaises(Parse(s).e, env);
  }

  /**
    The two evaluators part exactly where nothing that is reached lazily is rejected and something
    that is skipped would be.
    */
  lemma OutcomesDifferIff(c: Compiled, names: seq<Name>, s: Text, senv: SlotEnv, env: Env)
    requires Parse(s).Good? && Means(c, names, Parse(s).e) && Represents(senv, names, env)
    ensures EvalNode(c.nodes, c.root, senv, |names|) != EagerOutcome(Parse(s).e, env) <==>
      !LazyRaises(Parse(s).e, env) && SkippedRaises(Parse(s).e, env)
  {
    EvalNodeIsEval(c.nodes, names, c.root, senv, env);
    RaisesIsReachedOrSkipped(Parse(s).e, env);
  }

  /** They agree, with a value, wherever no indexed name is bound to a defined scalar. */
  lemma ScalarFreeAgree(c: Compiled, names: seq<Name>, s: Text, senv: SlotEnv, env: Env)
    requires Parse(s).Good? && Means(c, names, Parse(s).e) && Represents(senv, names, env)
    requires forall x | x in Bases(Parse(s).e) :: !BoundScalar(env, x)
    ensures EvalNode(c.nodes, c.root, senv, |names|) == EagerOutcome(Parse(s).e, env) == Val(Eval(Parse(s).e, env))
  {
    EvalNodeIsEval(c.nodes, names, c.root, senv, env);
    ScalarFreeNeverRaises(Parse(s).e, env);
  }

  lemma ScalarIndexRaises(env: Env)
    requires Lookup(env, "s") == V(5)
    ensures Raises(Index("s", Const(0)), env)
  {
  }

  /**
    The three shapes: a branch not taken, a branch under an X condition, and an index under a base
    without a value, each indexing a scalar.
    */
  lemma LazyBranchDiffers()
    ensures var env := map["s" := Scalar(V(5)), "x" := Scalar(X)];
      var bad := Index("s", Const(0));
      && Raises(Ite(Const(0), bad, Const(7)), env) && LazyOutcome(Ite(Const(0), bad, Const(7)), env) == Val(V(7))
      && Raises(Ite(Var("x"), bad, Const(7)), env) && LazyOutcome(Ite(Var("x"), bad, Const(7)), env) == Val(X)
      && Raises(Index("x", bad), env) && LazyOutcome(Index("x", bad), env) == Val(X)
  {
    var env := map["s" := Scalar(V(5)), "x" := Scalar(X)];
    assert Lookup(env, "s") == V(5) && Lookup(env, "x") == X;
    ScalarIndexRaises(env);
  }
}
