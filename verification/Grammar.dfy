/**
  Tokens of the expression language and the grammar as one pure parser.

  With `strict == false` this is the parser both implementations share: THEN, ELSE, `)` and `]`
  are optional, and a stray keyword in operand position is read as a name. With `strict == true`
  it accepts only well-bracketed text; that is the text the refinement rules splice together.
  */
module Grammar {
  import opened Expressions

  datatype Token =
    | TIf | TThen | TElse
    | TLPar | TRPar | TLBrk | TRBrk
    | TOrSym | TOrWord | TAndSym | TAndWord
    | TEq | TNe | TLe | TGe | TLt | TGt
    | TPlus | TMinus | TStar | TSlash | TPercent | TModWord
    | TTilde | TBang | TNotWord
    | TTrue | TFalse
    | TNum(n: nat)
    | TId(x: Name)

  type Text = seq<Token>

  /** The characters of a token: what a stray token in operand position is looked up as. */
  function Spelling(t: Token): Name {
    match t
    case TIf => "IF" case TThen => "THEN" case TElse => "ELSE"
    case TLPar => "(" case TRPar => ")" case TLBrk => "[" case TRBrk => "]"
    case TOrSym => "\\/" case TOrWord => "OR" case TAndSym => "/\\" case TAndWord => "AND"
    case TEq => "=" case TNe => "/=" case TLe => "<=" case TGe => ">=" case TLt => "<" case TGt => ">"
    case TPlus => "+" case TMinus => "-" case TStar => "*" case TSlash => "/"
    case TPercent => "%" case TModWord => "mod"
    case TTilde => "~" case TBang => "!" case TNotWord => "NOT"
    case TTrue => "TRUE" case TFalse => "FALSE"
    case TNum(_) => ""
    case TId(x) => x
  }

  // Precedence levels, loosest first; level 5 is the unary operators and operands.
  const OR: nat := 0
  const AND: nat := 1
  const CMP: nat := 2
  const ADD: nat := 3
  const MUL: nat := 4
  const UNARY: nat := 5

  /** The binary operator a token stands for at a precedence level. */
  function OpAt(lvl: nat, t: Token): Option<BinOp> {
    if lvl == OR then (if t.TOrSym? || t.TOrWord? then Some(Or) else None)
    else if lvl == AND then (if t.TAndSym? || t.TAndWord? then Some(And) else None)
    else if lvl == CMP then
      if t.TEq? then Some(Eq) else if t.TNe? then Some(Ne) else if t.TLe? then Some(Le)
      else if t.TGe? then Some(Ge) else if t.TLt? then Some(Lt) else if t.TGt? then Some(Gt)
      else None
    else if lvl == ADD then
      if t.TPlus? then Some(Add) else if t.TMinus? then Some(Sub) else None
    else if lvl == MUL then
      if t.TStar? then Some(Mul) else if t.TSlash? then Some(Div)
      else if t.TPercent? || t.TModWord? then Some(Mod) else None
    else None
  }

  function UnAt(t: Token): Option<UnOp> {
    if t.TTilde? || t.TBang? || t.TNotWord? then Some(Not)
    else if t.TMinus? then Some(Neg)
    else None
  }

  predicate At(s: Text, i: nat, t: Token) {
    i < |s| && s[i] == t
  }

  predicate OpHere(s: Text, i: nat, lvl: nat) {
    i < |s| && OpAt(lvl, s[i]).Some?
  }

  /** Step over `t` when it is there. */
  function Skip(s: Text, i: nat, t: Token): (j: nat)
    requires i <= |s|
    ensures i <= j <= |s|
  {
    if At(s, i, t) then i + 1 else i
  }

  /** The expression read and the position after it; `Bad` when the tokens run out. */
  datatype Parsed = Good(e: Expr, next: nat) | Bad

  function ParseExpr(strict: bool, s: Text, i: nat): (r: Parsed)
    requires i <= |s|
    ensures r.Good? ==> i < r.next <= |s|
    decreases |s| - i, 9
  {
    if At(s, i, TIf) then
      match ParseExpr(strict, s, i + 1)
      case Bad => Bad
      case Good(c, j) =>
        if strict && !At(s, j, TThen) then Bad else
        match ParseExpr(strict, s, Skip(s, j, TThen))
        case Bad => Bad
        case Good(t, k) =>
          if strict && !At(s, k, TElse) then Bad else
          match ParseExpr(strict, s, Skip(s, k, TElse))
          case Bad => Bad
          case Good(f, m) => Good(Ite(c, t, f), m)
    else ParseLevel(strict, s, i, OR)
  }

  function ParseLevel(strict: bool, s: Text, i: nat, lvl: nat): (r: Parsed)
    requires i <= |s| && lvl <= UNARY
    ensures r.Good? ==> i < r.next <= |s|
    decreases |s| - i, 8 - lvl
  {
    if lvl == UNARY then ParseUnary(strict, s, i)
    else match ParseLevel(strict, s, i, lvl + 1)
      case Bad => Bad
      case Good(a, j) => ParseRest(strict, s, j, lvl, a)
  }

  /** The operators of one level that follow `acc`; at most one comparison. */
  function ParseRest(strict: bool, s: Text, i: nat, lvl: nat, acc: Expr): (r: Parsed)
    requires i <= |s| && lvl < UNARY
    ensures r.Good? ==> i <= r.next <= |s|
    decreases |s| - i, 0
  {
    if OpHere(s, i, lvl) then
      match ParseLevel(strict, s, i + 1, lvl + 1)
      case Bad => Bad
      case Good(b, j) =>
        var e := Bin(OpAt(lvl, s[i]).value, acc, b);
        if lvl == CMP then Good(e, j) else ParseRest(strict, s, j, lvl, e)
    else Good(acc, i)
  }

  function ParseUnary(strict: bool, s: Text, i: nat): (r: Parsed)
    requires i <= |s|
    ensures r.Good? ==> i < r.next <= |s|
    decreases |s| - i, 2
  {
    if i < |s| && UnAt(s[i]).Some? then
      match ParseUnary(strict, s, i + 1)
      case Bad => Bad
      case Good(a, j) => Good(Un(UnAt(s[i]).value, a), j)
    else ParsePrimary(strict, s, i)
  }

  function ParsePrimary(strict: bool, s: Text, i: nat): (r: Parsed)
    requires i <= |s|
    ensures r.Good? ==> i < r.next <= |s|
    decreases |s| - i, 1
  {
    if i == |s| then Bad
    else if s[i].TLPar? then
      match ParseExpr(strict, s, i + 1)
      case Bad => Bad
      case Good(e, j) => if strict && !At(s, j, TRPar) then Bad else Good(e, Skip(s, j, TRPar))
    else if s[i].TNum? then Good(Const(s[i].n), i + 1)
    else if s[i].TTrue? then Good(Const(1), i + 1)
    else if s[i].TFalse? then Good(Const(0), i + 1)
    else if strict && !s[i].TId? then Bad
    else ParseName(strict, s, i)
  }

  /** A name, optionally indexed; any other token met here is looked up as a name too. */
  function ParseName(strict: bool, s: Text, i: nat): (r: Parsed)
    requires i < |s|
    ensures r.Good? ==> i < r.next <= |s|
    decreases |s| - i, 0
  {
    if At(s, i + 1, TLBrk) then
      match ParseExpr(strict, s, i + 2)
      case Bad => Bad
      case Good(e, j) =>
        if strict && !At(s, j, TRBrk) then Bad
        else Good(Index(Spelling(s[i]), e), Skip(s, j, TRBrk))
    else Good(Var(Spelling(s[i])), i + 1)
  }

  /** What `_eval` computes for a whole text, trailing tokens ignored. */
  function Parse(s: Text): Parsed {
    ParseExpr(false, s, 0)
  }

  /** `s` is exactly the well-bracketed text of `e`. */
  predicate Denotes(s: Text, e: Expr) {
    ParseExpr(true, s, 0) == Good(e, |s|)
  }

  // ---------------------------------------------------------------------------
  // One name for the parsing functions, so that facts about them can be stated
  // and proved once.
  // ---------------------------------------------------------------------------

  datatype Rule = RExpr | RLevel(lvl: nat) | RRest(rest: nat, acc: Expr) | RUnary | RPrimary

  predicate Legal(g: Rule) {
    (g.RLevel? ==> g.lvl <= UNARY) && (g.RRest? ==> g.rest < UNARY)
  }

  function Rank(g: Rule): nat {
    match g
    case RExpr => 9
    case RLevel(l) => if l <= UNARY then 8 - l else 0
    case RRest(_, _) => 0
    case RUnary => 2
    case RPrimary => 1
  }

  function Run(g: Rule, strict: bool, s: Text, i: nat): (r: Parsed)
    requires Legal(g) && i <= |s|
  {
    match g
    case RExpr => ParseExpr(strict, s, i)
    case RLevel(l) => ParseLevel(strict, s, i, l)
    case RRest(l, a) => ParseRest(strict, s, i, l, a)
    case RUnary => ParseUnary(strict, s, i)
    case RPrimary => ParsePrimary(strict, s, i)
  }

  /** Well-bracketed text means the same to the tolerant parser. */
  lemma {:induction false} StrictIsTolerant(g: Rule, s: Text, i: nat)
    requires Legal(g) && i <= |s|
    requires Run(g, true, s, i).Good?
    ensures Run(g, false, s, i) == Run(g, true, s, i)
    decreases |s| - i, Rank(g)
  {
    match g
    case RExpr =>
      if At(s, i, TIf) {
        StrictIsTolerant(RExpr, s, i + 1);
        var j := ParseExpr(true, s, i + 1).next;
        StrictIsTolerant(RExpr, s, j + 1);
        var k := ParseExpr(true, s, j + 1).next;
        StrictIsTolerant(RExpr, s, k + 1);
      } else {
        StrictIsTolerant(RLevel(OR), s, i);
      }
    case RLevel(l) =>
      if l == UNARY {
        StrictIsTolerant(RUnary, s, i);
      } else {
        StrictIsTolerant(RLevel(l + 1), s, i);
        var p := ParseLevel(true, s, i, l + 1);
        StrictIsTolerant(RRest(l, p.e), s, p.next);
      }
    case RRest(l, a) =>
      if OpHere(s, i, l) {
        StrictIsTolerant(RLevel(l + 1), s, i + 1);
        var p := ParseLevel(true, s, i + 1, l + 1);
        if l != CMP {
          StrictIsTolerant(RRest(l, Bin(OpAt(l, s[i]).value, a, p.e)), s, p.next);
        }
      }
    case RUnary =>
      if UnAt(s[i]).Some? {
        StrictIsTolerant(RUnary, s, i + 1);
      } else {
        StrictIsTolerant(RPrimary, s, i);
      }
    case RPrimary =>
      if s[i].TLPar? {
        StrictIsTolerant(RExpr, s, i + 1);
      } else if s[i].TId? {
        StrictNameIsTolerant(s, i);
      }
  }

  lemma {:induction false} StrictNameIsTolerant(s: Text, i: nat)
    requires i < |s| && ParseName(true, s, i).Good?
    ensures ParseName(false, s, i) == ParseName(true, s, i)
    decreases |s| - i, 0
  {
    if At(s, i + 1, TLBrk) {
      StrictIsTolerant(RExpr, s, i + 2);
    }
  }

  /** A token that cannot continue an expression of precedence level `lvl` or tighter. */
  predicate Breaks(lvl: nat, t: Token) {
    && !t.TLBrk?
    && (lvl <= OR ==> OpAt(OR, t).None?)
    && (lvl <= AND ==> OpAt(AND, t).None?)
    && (lvl <= CMP ==> OpAt(CMP, t).None?)
    && (lvl <= ADD ==> OpAt(ADD, t).None?)
    && (lvl <= MUL ==> OpAt(MUL, t).None?)
  }

  /** The loosest operators a rule consumes. */
  function LevelOf(g: Rule): nat {
    match g
    case RExpr => OR
    case RLevel(l) => l
    case RRest(l, _) => l
    case RUnary => UNARY
    case RPrimary => UNARY
  }

  /** `w` is `s` with more text behind it; a piece ending with `s` is followed by a token it cannot take. */
  predicate Continues(lvl: nat, s: Text, w: Text, j: nat) {
    s <= w && (j == |s| && |s| < |w| ==> Breaks(lvl, w[|s|]))
  }

  /** Splicing more text behind a well-bracketed piece leaves the way it is read unchanged. */
  lemma {:induction false} ParseExtends(g: Rule, s: Text, w: Text, i: nat)
    requires Legal(g) && i <= |s| <= |w|
    requires Run(g, true, s, i).Good? && Continues(LevelOf(g), s, w, Run(g, true, s, i).next)
    ensures Run(g, true, w, i) == Run(g, true, s, i)
    decreases |s| - i, Rank(g)
  {
    match g
    case RExpr =>
      if At(s, i, TIf) {
        IfExtends(s, w, i);
      } else {
        ParseExtends(RLevel(OR), s, w, i);
      }
    case RLevel(l) =>
      if l == UNARY {
        ParseExtends(RUnary, s, w, i);
      } else {
        var p := ParseLevel(true, s, i, l + 1);
        ParseExtends(RLevel(l + 1), s, w, i);
        ParseExtends(RRest(l, p.e), s, w, p.next);
      }
    case RRest(l, a) =>
      RestExtends(l, a, s, w, i);
    case RUnary =>
      if UnAt(s[i]).Some? {
        ParseExtends(RUnary, s, w, i + 1);
      } else {
        ParseExtends(RPrimary, s, w, i);
      }
    case RPrimary =>
      PrimaryExtends(s, w, i);
  }

  lemma {:induction false} IfExtends(s: Text, w: Text, i: nat)
    requires i <= |s| <= |w| && At(s, i, TIf) && ParseExpr(true, s, i).Good?
    requires Continues(OR, s, w, ParseExpr(true, s, i).next)
    ensures ParseExpr(true, w, i) == ParseExpr(true, s, i)
    decreases |s| - i, 0, 0
  {
    ParseExtends(RExpr, s, w, i + 1);
    var j := ParseExpr(true, s, i + 1).next;
    ParseExtends(RExpr, s, w, j + 1);
    var k := ParseExpr(true, s, j + 1).next;
    ParseExtends(RExpr, s, w, k + 1);
  }

  lemma {:induction false} RestExtends(l: nat, a: Expr, s: Text, w: Text, i: nat)
    requires l < UNARY && i <= |s| <= |w|
    requires ParseRest(true, s, i, l, a).Good? && Continues(l, s, w, ParseRest(true, s, i, l, a).next)
    ensures ParseRest(true, w, i, l, a) == ParseRest(true, s, i, l, a)
    decreases |s| - i, 0, 0
  {
    if OpHere(s, i, l) {
      var p := ParseLevel(true, s, i + 1, l + 1);
      ParseExtends(RLevel(l + 1), s, w, i + 1);
      if l != CMP {
        RestExtends(l, Bin(OpAt(l, s[i]).value, a, p.e), s, w, p.next);
      }
    } else {
      assert !OpHere(w, i, l);
    }
  }

  lemma {:induction false} PrimaryExtends(s: Text, w: Text, i: nat)
    requires i <= |s| <= |w|
    requires ParsePrimary(true, s, i).Good? && Continues(UNARY, s, w, ParsePrimary(true, s, i).next)
    ensures ParsePrimary(true, w, i) == ParsePrimary(true, s, i)
    decreases |s| - i, 0, 1
  {
    if s[i].TLPar? {
      ParseExtends(RExpr, s, w, i + 1);
    } else if s[i].TId? {
      NameExtends(s, w, i);
    }
  }

  lemma {:induction false} NameExtends(s: Text, w: Text, i: nat)
    requires i < |s| <= |w|
    requires ParseName(true, s, i).Good? && Continues(UNARY, s, w, ParseName(true, s, i).next)
    ensures ParseName(true, w, i) == ParseName(true, s, i)
    decreases |s| - i, 0, 0
  {
    if At(s, i + 1, TLBrk) {
      ParseExtends(RExpr, s, w, i + 2);
    } else {
      assert !At(w, i + 1, TLBrk);
    }
  }

  function Shifted(r: Parsed, k: nat): Parsed {
    match r case Good(e, n) => Good(e, n + k) case Bad => Bad
  }

  /** Text in front of a piece moves what is read, and nothing else. */
  lemma {:induction false} ParseShifts(g: Rule, p: Text, s: Text, i: nat)
    requires Legal(g) && i <= |s|
    ensures Run(g, true, p + s, |p| + i) == Shifted(Run(g, true, s, i), |p|)
    decreases |s| - i, Rank(g)
  {
    match g
    case RExpr =>
      if At(s, i, TIf) {
        IfShifts(p, s, i);
      } else {
        ParseShifts(RLevel(OR), p, s, i);
      }
    case RLevel(l) =>
      if l == UNARY {
        ParseShifts(RUnary, p, s, i);
      } else {
        ParseShifts(RLevel(l + 1), p, s, i);
        var a := ParseLevel(true, s, i, l + 1);
        if a.Good? {
          ParseShifts(RRest(l, a.e), p, s, a.next);
        }
      }
    case RRest(l, a) =>
      RestShifts(l, a, p, s, i);
    case RUnary =>
      if i < |s| && UnAt(s[i]).Some? {
        ParseShifts(RUnary, p, s, i + 1);
      } else {
        ParseShifts(RPrimary, p, s, i);
      }
    case RPrimary =>
      PrimaryShifts(p, s, i);
  }

  lemma AtShifts(p: Text, s: Text, i: nat, t: Token)
    ensures At(p + s, |p| + i, t) == At(s, i, t)
  {
  }

  lemma {:induction false} IfShifts(p: Text, s: Text, i: nat)
    requires i <= |s| && At(s, i, TIf)
    ensures ParseExpr(true, p + s, |p| + i) == Shifted(ParseExpr(true, s, i), |p|)
    decreases |s| - i, 0, 2
  {
    AtShifts(p, s, i, TIf);
    IfReadsOn(s, i);
    IfReadsOn(p + s, |p| + i);
    ConditionShifts(p, s, i);
  }

  lemma {:induction false} ConditionShifts(p: Text, s: Text, i: nat)
    requires i < |s|
    ensures ConditionRead(p + s, |p| + i) == Shifted(ConditionRead(s, i), |p|)
    decreases |s| - i, 0, 1
  {
    ParseShifts(RExpr, p, s, i + 1);
    var c := ParseExpr(true, s, i + 1);
    if c.Good? {
      AtShifts(p, s, c.next, TThen);
      if At(s, c.next, TThen) {
        TailShifts(p, s, c.e, c.next);
      }
    }
  }

  lemma {:induction false} TailShifts(p: Text, s: Text, e: Expr, j: nat)
    requires j < |s|
    ensures TailRead(p + s, e, |p| + j) == Shifted(TailRead(s, e, j), |p|)
    decreases |s| - j, 0, 0
  {
    ParseShifts(RExpr, p, s, j + 1);
    var t := ParseExpr(true, s, j + 1);
    if t.Good? {
      ElseShifts(p, s, e, t.e, t.next);
    }
  }

  lemma {:induction false} ElseShifts(p: Text, s: Text, e: Expr, t: Expr, k: nat)
    requires k <= |s|
    ensures ElsePart(p + s, e, t, |p| + k) == Shifted(ElsePart(s, e, t, k), |p|)
    decreases |s| - k, 0, 0
  {
    AtShifts(p, s, k, TElse);
    if At(s, k, TElse) {
      ParseShifts(RExpr, p, s, k + 1);
    }
  }

  /** What is read behind the word IF. */
  function ConditionRead(s: Text, i: nat): Parsed
    requires i < |s|
  {
    match ParseExpr(true, s, i + 1)
    case Bad => Bad
    case Good(e, j) => if !At(s, j, TThen) then Bad else TailRead(s, e, j)
  }

  /** What an IF reads once its condition is read. */
  function TailRead(s: Text, e: Expr, j: nat): Parsed
    requires j < |s|
  {
    match ParseExpr(true, s, j + 1)
    case Bad => Bad
    case Good(t, k) => ElsePart(s, e, t, k)
  }

  /** What it reads once its THEN is read, too. */
  function ElsePart(s: Text, e: Expr, t: Expr, k: nat): Parsed
    requires k <= |s|
  {
    if !At(s, k, TElse) then Bad else
    match ParseExpr(true, s, k + 1)
    case Bad => Bad
    case Good(f, n) => Good(Ite(e, t, f), n)
  }

  lemma IfReadsOn(s: Text, i: nat)
    requires i <= |s| && At(s, i, TIf)
    ensures ParseExpr(true, s, i) == ConditionRead(s, i)
  {
  }

  lemma {:induction false} RestShifts(l: nat, a: Expr, p: Text, s: Text, i: nat)
    requires l < UNARY && i <= |s|
    ensures ParseRest(true, p + s, |p| + i, l, a) == Shifted(ParseRest(true, s, i, l, a), |p|)
    decreases |s| - i, 0, 0
  {
    if OpHere(s, i, l) {
      ParseShifts(RLevel(l + 1), p, s, i + 1);
      var b := ParseLevel(true, s, i + 1, l + 1);
      if b.Good? && l != CMP {
        RestShifts(l, Bin(OpAt(l, s[i]).value, a, b.e), p, s, b.next);
      }
    }
  }

  lemma {:induction false} PrimaryShifts(p: Text, s: Text, i: nat)
    requires i <= |s|
    ensures ParsePrimary(true, p + s, |p| + i) == Shifted(ParsePrimary(true, s, i), |p|)
    decreases |s| - i, 0, 1
  {
    if i < |s| {
      if s[i].TLPar? {
        ParseShifts(RExpr, p, s, i + 1);
      } else if s[i].TId? {
        NameShifts(p, s, i);
      }
    }
  }

  lemma {:induction false} NameShifts(p: Text, s: Text, i: nat)
    requires i < |s|
    ensures ParseName(true, p + s, |p| + i) == Shifted(ParseName(true, s, i), |p|)
    decreases |s| - i, 0, 0
  {
    if At(s, i + 1, TLBrk) {
      ParseShifts(RExpr, p, s, i + 2);
    }
  }
}
