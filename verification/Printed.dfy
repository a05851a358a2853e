/**
  What the printed sections hold, said of the design alone: which names are declared and how, which
  assignments are combinational or of the reset and which of them come back, and on which level of the
  reset port the text resets. That level is the one on which the simulator resets.
  */
module Printed {
  import opened Expressions
  import opened Sections
  import opened Printing
  import ReadBack
  import Simulator
  import Cycles

  // ---------------------------------------------------------------------------
  // The reset level
  // ---------------------------------------------------------------------------

  ghost predicate HasReset(d: Design) {
    d.resetAction.Some? && exists k :: 0 <= k < |d.acts| && d.acts[k].name == d.resetAction.value
  }

  /** The `k`-th action is the last of the reset's name. */
  ghost predicate NamedLast(acts: seq<Act>, d: Design, k: nat) {
    k < |acts| && d.resetAction == Some(acts[k].name) && forall j | k < j < |acts| :: d.resetAction != Some(acts[j].name)
  }

  /** The reset list is that of the last action of the reset's name. */
  lemma {:induction false} ResetListIff(acts: seq<Act>, d: Design, us: seq<Entry>)
    ensures ResetUpdates(acts, d) == Some(us) <==> exists k: nat :: NamedLast(acts, d, k) && acts[k].updates == us
    decreases |acts|
  {
    if acts != [] {
      var n := |acts| - 1;
      ResetListIff(acts[..n], d, us);
      assert forall k: nat | k < n && d.resetAction != Some(acts[n].name) ::
        NamedLast(acts, d, k) <==> NamedLast(acts[..n], d, k);
      if d.resetAction == Some(acts[n].name) {
        assert NamedLast(acts, d, n);
      } else if ResetUpdates(acts, d) == Some(us) {
        var k: nat :| NamedLast(acts[..n], d, k) && acts[..n][k].updates == us;
        assert NamedLast(acts, d, k);
      }
    }
  }

  lemma {:induction false} ResetPrinted(acts: seq<Act>, d: Design)
    ensures ResetUpdates(acts, d).Some? <==> exists k :: 0 <= k < |acts| && d.resetAction == Some(acts[k].name)
    decreases |acts|
  {
    if acts != [] {
      var n := |acts| - 1;
      ResetPrinted(acts[..n], d);
      assert forall k | 0 <= k < n :: acts[..n][k] == acts[k];
    }
  }

  lemma InMiddle<T>(a: seq<T>, b: seq<T>, c: seq<T>, x: T)
    requires x in b
    ensures x in a + b + c
  {
  }

  /** An active-high design tests its reset port for 1, an active-low design for 0. */
  lemma ResetLinePrinted(d: Design, port: string)
    requires HasReset(d)
    ensures "    /\\ IF " + port + " = 1 THEN" in Text(d, port, false)
    ensures "    /\\ IF " + port + " = 0 THEN" in Text(d, port, true)
  {
    ResetPrinted(d.acts, d);
    ResetInText(d, port, false);
    ResetInText(d, port, true);
    HeadText(port);
  }

  lemma HeadText(port: string)
    ensures ResetLine(port, false) == "    /\\ IF " + port + " = 1 THEN"
    ensures ResetLine(port, true) == "    /\\ IF " + port + " = 0 THEN"
  {
  }

  lemma ResetInText(d: Design, port: string, activeLow: bool)
    requires ResetUpdates(d.acts, d).Some?
    ensures ResetLine(port, activeLow) in Text(d, port, activeLow)
  {
    var es := ResetUpdates(d.acts, d).value;
    var line := ResetLine(port, activeLow);
    var lines := PipeLines(Some(es), d.next, port, activeLow);
    assert lines[0] == line;
    InMiddle([PIPE + " =="] + [Conj(INDENT, CLK_UPDATE)], lines, [""], line);
    InMiddle(Opening(d, port) + CombSection(CombActs(d.acts, d)), PipeSection(Some(es), d.next, port, activeLow), [Footer(d.title)], line);
  }

  /** Every printed pipeline toggles the clock. */
  lemma ClockPrinted(d: Design, port: string, activeLow: bool)
    ensures "    /\\ clk' = 1 - clk" in Text(d, port, activeLow)
  {
    var line := Conj(INDENT, CLK_UPDATE);
    var reset := ResetUpdates(d.acts, d);
    ClockText();
    InMiddle([PIPE + " =="], [line], PipeLines(reset, d.next, port, activeLow) + [""], line);
    assert [PIPE + " =="] + [line] + (PipeLines(reset, d.next, port, activeLow) + [""]) == PipeSection(reset, d.next, port, activeLow);
    InMiddle(Opening(d, port) + CombSection(CombActs(d.acts, d)), PipeSection(reset, d.next, port, activeLow), [Footer(d.title)], line);
  }

  lemma ClockText()
    ensures Conj(INDENT, CLK_UPDATE) == "    /\\ clk' = 1 - clk"
  {
  }

  /** The line that opens the reset branch on a level of the port. */
  predicate TestsFor(l: Line, port: string, level: nat) {
    (level == 0 && l == "    /\\ IF " + port + " = 0 THEN") || (level == 1 && l == "    /\\ IF " + port + " = 1 THEN")
  }

  /** The condition of that line, on the value a vector drives. */
  function Tested(port: string, level: nat, inputs: Simulator.Vector): Value
    requires port in inputs
  {
    Eval(Bin(Eq, Var(port), Const(level)), map[port := Scalar(inputs[port])])
  }

  /**
    The text and the simulator reset on the same level: where the printed condition is true of the value
    a vector drives, the edge of that vector resets; where it is false, it is a normal step.
    */
  lemma {:induction false} TextResetsAsSimulator(d: Design, cfg: Simulator.Config, s0: Env, stimulus: seq<Simulator.Vector>,
                              tr: Simulator.Trace, i: nat) returns (line: Line, level: nat)
    requires HasReset(d) && Simulator.IsRun(cfg, s0, stimulus, tr) && i < |stimulus| && Simulator.Acyclic(cfg.comb)
    requires cfg.resetPort in stimulus[i] && stimulus[i][cfg.resetPort] in {V(0), V(1)}
    ensures line in Text(d, cfg.resetPort, cfg.activeLow) && TestsFor(line, cfg.resetPort, level)
    ensures level == if cfg.activeLow then 0 else 1
    ensures Tested(cfg.resetPort, level, stimulus[i]) == V(1) ==> Cycles.ResetLands(cfg, tr.seen[i], tr.states[i + 1])
    ensures Tested(cfg.resetPort, level, stimulus[i]) == V(0) ==> Cycles.NextLands(cfg, tr.seen[i], tr.states[i + 1])
    ensures Tested(cfg.resetPort, level, stimulus[i]) in {V(0), V(1)}
  {
    var port := cfg.resetPort;
    level := if cfg.activeLow then 0 else 1;
    line := if cfg.activeLow then "    /\\ IF " + port + " = 0 THEN" else "    /\\ IF " + port + " = 1 THEN";
    ResetLinePrinted(d, port);
    Cycles.ResetLevel(cfg, s0, stimulus, tr, i);
    TestedIs(port, level, stimulus[i]);
  }

  lemma TestedIs(port: string, level: nat, inputs: Simulator.Vector)
    requires port in inputs && inputs[port].V?
    ensures Tested(port, level, inputs) == if inputs[port] == V(level) then V(1) else V(0)
  {
    var env := map[port := Scalar(inputs[port])];
    var e := Bin(Eq, Var(port), Const(level));
    assert Eval(e, env) == ApplyBin(Eq, Eval(e.l, env), Eval(e.r, env));
    assert Eval(e.l, env) == inputs[port] && Eval(e.r, env) == V(level);
  }

  // ---------------------------------------------------------------------------
  // Declarations and combinational assignments
  // ---------------------------------------------------------------------------

  /** Declared as a variable of the design, one bit wide at least. */
  ghost predicate IsVariable(vars: seq<Decl>, port: string, v: Decl) {
    exists k :: 0 <= k < |vars| && vars[k].name != port && vars[k].name != "clk" &&
      v == Decl(vars[k].name, if vars[k].width == 0 then 1 else vars[k].width, vars[k].depth)
  }

  lemma {:induction false} DeclaredIff(vars: seq<Decl>, port: string, v: Decl)
    ensures v in Declared(vars, port) <==> IsVariable(vars, port, v)
    decreases |vars|
  {
    if vars != [] {
      DeclaredIff(vars[1..], port, v);
      assert forall k | 0 < k < |vars| :: vars[1..][k - 1] == vars[k];
      if IsVariable(vars[1..], port, v) {
        var k :| 0 <= k < |vars[1..]| && vars[1..][k].name != port && vars[1..][k].name != "clk" &&
          v == Decl(vars[1..][k].name, if vars[1..][k].width == 0 then 1 else vars[1..][k].width, vars[1..][k].depth);
        assert vars[k + 1] == vars[1..][k];
      }
    }
  }

  /** The declared names: the variables, the free inputs, and the two ports, one bit each. */
  lemma SizedIff(d: Design, port: string, v: Decl)
    ensures v in SizedVars(d, port) <==>
      || IsVariable(d.vars, port, v) || v == Decl("clk", 1, 0) || v == Decl(port, 1, 0)
      || exists k :: 0 <= k < |d.inputs| && v == Decl(d.inputs[k].0, d.inputs[k].1, 0)
  {
    DeclaredIff(d.vars, port, v);
    var ins := seq(|d.inputs|, k requires 0 <= k < |d.inputs| => Decl(d.inputs[k].0, d.inputs[k].1, 0));
    assert SizedVars(d, port) == Declared(d.vars, port) + [Decl("clk", 1, 0), Decl(port, 1, 0)] + ins;
    if exists k :: 0 <= k < |d.inputs| && v == Decl(d.inputs[k].0, d.inputs[k].1, 0) {
      var k :| 0 <= k < |d.inputs| && v == Decl(d.inputs[k].0, d.inputs[k].1, 0);
      assert ins[k] == v;
    }
  }

  /** An update of an action that is not the reset, not clocked and not a mere hold. */
  ghost predicate IsCombinational(acts: seq<Act>, d: Design, e: Entry) {
    exists k :: 0 <= k < |acts| && d.resetAction != Some(acts[k].name) && !acts[k].clocked && !acts[k].hold && e in acts[k].updates
  }

  lemma {:induction false} UpdatesAppend(a: seq<Act>, b: seq<Act>)
    ensures AllUpdates(a + b) == AllUpdates(a) + AllUpdates(b)
    decreases |a|
  {
    if a == [] {
      assert a + b == b;
    } else {
      assert (a + b)[1..] == a[1..] + b;
      UpdatesAppend(a[1..], b);
    }
  }

  lemma {:induction false} CombinationalIff(acts: seq<Act>, d: Design, e: Entry)
    ensures e in AllUpdates(CombActs(acts, d)) <==> IsCombinational(acts, d, e)
    decreases |acts|
  {
    if acts != [] {
      var n, a := |acts| - 1, acts[|acts| - 1];
      CombinationalIff(acts[..n], d, e);
      assert forall k | 0 <= k < n :: acts[..n][k] == acts[k];
      UpdatesAppend(CombActs(acts[..n], d), [a]);
      assert AllUpdates([a]) == a.updates + [];
      assert CombActs(acts[..n], d) + [] == CombActs(acts[..n], d);
    }
  }

  // ---------------------------------------------------------------------------
  // Which assignments come back
  // ---------------------------------------------------------------------------

  /** The entry assigns the name, or an element of it. */
  predicate AssignsTo(e: Entry, x: string) {
    x != "" && AllWord(x) && x <= e.0 && (|x| < |e.0| ==> e.0[|x|] == '[')
  }

  /** Neither of the two ports, nor a variable that exists for verification only. */
  predicate Emitted(port: string, x: string) {
    x != "clk" && x != port && !("hw_" <= x)
  }

  lemma WordsAreTrim(x: string)
    requires AllWord(x)
    ensures Strip(x) == x
  {
    StripPadded("", x, "");
    assert "" + x + "" == x;
  }

  lemma BaseIs(e: Entry, x: string)
    requires AssignsTo(e, x)
    ensures Base(e.0) == x
  {
    SkipIs(c => c != '[', e.0, 0, |x|);
    assert e.0[..|x|] == x;
    WordsAreTrim(x);
  }

  lemma EmitsIff(port: string, e: Entry, x: string)
    requires AssignsTo(e, x)
    ensures Emits(port, e.0) <==> Emitted(port, x)
  {
    BaseIs(e, x);
    assert Starts(x, "hw_") <==> "hw_" <= x;
  }

  lemma {:induction false} KeptIff(port: string, es: seq<Entry>, e: Entry, x: string)
    requires AssignsTo(e, x)
    ensures e in Kept(port, es) <==> e in es && Emitted(port, x)
    decreases |es|
  {
    if es != [] {
      KeptIff(port, es[1..], e, x);
      EmitsIff(port, e, x);
      assert es == [es[0]] + es[1..];
    }
  }

  /** An update of the last action of the reset's name. */
  ghost predicate ResetsTo(d: Design, e: Entry) {
    exists k: nat :: NamedLast(d.acts, d, k) && e in d.acts[k].updates
  }

  /**
    An assignment is read back from the printed text as a reset, a next state or a combinational
    definition exactly when the design has it as that, and its target is neither a port nor there for
    verification only; a combinational definition unless its section is printed empty.
    */
  lemma AssignmentsComeBack(d: Design, port: string, activeLow: bool, e: Entry, x: string)
    requires ReadBack.WellTexted(d, port) && AssignsTo(e, x)
    ensures var ls := Text(d, port, activeLow);
      && (e in SeqRead(port, ls).0 <==> ResetsTo(d, e) && Emitted(port, x))
      && (e in SeqRead(port, ls).1 <==> e in d.next && Emitted(port, x))
      && (CombActs(d.acts, d) == [] || AllUpdates(CombActs(d.acts, d)) != [] ==>
            (e in CombRead(port, ls) <==> IsCombinational(d.acts, d, e) && Emitted(port, x)))
  {
    var reset := ResetUpdates(d.acts, d);
    ReadBack.SequentialReadsBack(d, port, activeLow);
    ReadBack.CombinationalReadsBackIff(d, port, activeLow);
    KeptIff(port, ReadBack.ResetList(reset), e, x);
    KeptIff(port, d.next, e, x);
    KeptIff(port, AllUpdates(CombActs(d.acts, d)), e, x);
    CombinationalIff(d.acts, d, e);
    ResetEntry(d, e);
  }

  lemma ResetEntry(d: Design, e: Entry)
    ensures e in ReadBack.ResetList(ResetUpdates(d.acts, d)) <==> ResetsTo(d, e)
  {
    var reset := ResetUpdates(d.acts, d);
    if reset.Some? {
      ResetListIff(d.acts, d, reset.value);
    }
    if ResetsTo(d, e) {
      var k: nat :| NamedLast(d.acts, d, k) && e in d.acts[k].updates;
      ResetListIff(d.acts, d, d.acts[k].updates);
    }
  }

  // ---------------------------------------------------------------------------
  // Which line opens the reset branch, and which ends the declarations
  // ---------------------------------------------------------------------------

  /** `/\` and, behind any blanks, `IF` at `i`, and behind at least one blank the port at `j`. */
  predicate OpensAt(c: string, port: string, i: nat, j: nat) {
    && 2 <= i && i + 2 < j && j + |port| <= |c|
    && c[..2] == "/\\" && ReadBack.AllBlank(c[2..i])
    && c[i..i + 2] == "IF" && ReadBack.AllBlank(c[i + 2..j])
    && c[j..j + |port|] == port
  }

  /** A line opens the reset branch exactly when it tests a name that starts with the port's. */
  lemma OpensResetIff(c: string, port: string)
    requires port != "" && AllWord(port)
    ensures OpensReset(c, port) <==> exists i, j :: OpensAt(c, port, i, j)
  {
    if OpensReset(c, port) {
      var i := Skip(Blank, c, 2);
      assert OpensAt(c, port, i, Skip(Blank, c, i + 2));
    }
    if exists i, j :: OpensAt(c, port, i, j) {
      var i, j :| OpensAt(c, port, i, j);
      OpeningIs(c, port, i, j);
    }
  }

  lemma OpeningIs(c: string, port: string, i: nat, j: nat)
    requires port != "" && AllWord(port) && OpensAt(c, port, i, j)
    ensures OpensReset(c, port)
  {
    assert forall k | 2 <= k < i :: c[k] == c[2..i][k - 2];
    assert forall k | i + 2 <= k < j :: c[k] == c[i + 2..j][k - i - 2];
    assert c[i] == c[i..i + 2][0] && c[j] == c[j..j + |port|][0];
    SkipIs(Blank, c, 2, i);
    SkipIs(Blank, c, i + 2, j);
  }

  /** A word from `i` to `j`, with nothing but blanks in front, and `==` at `k` with nothing but blanks between. */
  predicate DefinesAt(l: Line, i: nat, j: nat, k: nat) {
    && i < j <= k && k + 2 <= |l| && l[k..k + 2] == "=="
    && ReadBack.AllBlank(l[..i]) && AllWord(l[i..j]) && ReadBack.AllBlank(l[j..k])
  }

  /** The declarations end at a line that opens a definition or the footer. */
  lemma DefinesIff(l: Line)
    ensures Defines(l) <==> "====" <= l || exists i, j, k :: DefinesAt(l, i, j, k)
  {
    var a := Skip(Blank, l, 0);
    var b := Skip(Word, l, a);
    var c := Skip(Blank, l, b);
    if a < b && At(l, c, "==") {
      assert DefinesAt(l, a, b, c);
    }
    if exists i, j, k :: DefinesAt(l, i, j, k) {
      var i, j, k :| DefinesAt(l, i, j, k);
      DefinitionIs(l, i, j, k);
    }
    assert Starts(l, "====") <==> "====" <= l;
  }

  lemma DefinitionIs(l: Line, i: nat, j: nat, k: nat)
    requires DefinesAt(l, i, j, k)
    ensures Skip(Blank, l, 0) == i && Skip(Word, l, i) == j && Skip(Blank, l, j) == k && At(l, k, "==")
  {
    assert forall q | 0 <= q < i :: l[q] == l[..i][q];
    assert forall q | i <= q < j :: l[q] == l[i..j][q - i];
    assert forall q | j <= q < k :: l[q] == l[j..k][q - j];
    assert l[k] == l[k..k + 2][0];
    SkipIs(Blank, l, 0, i);
    SkipIs(Word, l, i, j);
    SkipIs(Blank, l, j, k);
  }

  // ---------------------------------------------------------------------------
  // Numerals and declarations as printed
  // ---------------------------------------------------------------------------

  function Tens(k: nat): nat {
    if k == 0 then 1 else 10 * Tens(k - 1)
  }

  /** Numerals are decimal: as many digits as the number has, and no leading zero. */
  lemma {:induction false} NumeralIsDecimal(n: nat)
    ensures var s := Numeral(n);
      s != "" && n < Tens(|s|) && (n > 0 ==> Tens(|s| - 1) <= n) && forall k | 0 <= k < |s| :: '0' <= s[k] <= '9'
    decreases n
  {
    if n >= 10 {
      NumeralIsDecimal(n / 10);
      assert n == 10 * (n / 10) + n % 10;
    }
  }

  lemma {:induction false} VarLineIn(vs: seq<Decl>, k: nat)
    requires k < |vs|
    ensures VarLine(INDENT, vs[k], k == |vs| - 1) in VarLines(vs)
    decreases |vs|
  {
    if k > 0 {
      VarLineIn(vs[1..], k - 1);
    }
  }

  lemma InFirst<T>(a: seq<T>, b: seq<T>, c: seq<T>, e: seq<T>, x: T)
    requires x in a
    ensures x in a + b + c + e
  {
  }

  lemma InSecond<T>(a: seq<T>, b: seq<T>, c: seq<T>, e: seq<T>, x: T)
    requires x in b
    ensures x in a + b + c + e
  {
  }

  lemma OpeningHas(d: Design, port: string, line: Line)
    requires line in VarLines(SizedVars(d, port))
    ensures line in Opening(d, port)
  {
    InSecond([TitleLine(d.title), "EXTENDS Integers", "", "VARIABLES"], VarLines(SizedVars(d, port)), [""],
             [INIT + " ==", INDENT + "/\\ " + d.init, ""], line);
  }

  lemma TextHas(d: Design, port: string, activeLow: bool, line: Line)
    requires line in Opening(d, port)
    ensures line in Text(d, port, activeLow)
  {
    InFirst(Opening(d, port), CombSection(CombActs(d.acts, d)),
            PipeSection(ResetUpdates(d.acts, d), d.next, port, activeLow), [Footer(d.title)], line);
  }

  /** A declaration's line: a comma behind every name but the last, the width noted, and the depth of a memory. */
  lemma DeclarationPrinted(d: Design, port: string, activeLow: bool, k: nat)
    requires k < |SizedVars(d, port)|
    ensures var v, more := SizedVars(d, port)[k], k + 1 < |SizedVars(d, port)|;
      "    " + v.name + (if more then "," else "") + "  \\* width: " + Numeral(v.width) +
        (if v.depth == 0 then "" else " depth: " + Numeral(v.depth)) in Text(d, port, activeLow)
  {
    var vs := SizedVars(d, port);
    var line := VarLine(INDENT, vs[k], k == |vs| - 1);
    VarText(vs[k], k == |vs| - 1);
    VarLineIn(vs, k);
    OpeningHas(d, port, line);
    TextHas(d, port, activeLow, line);
  }

  lemma VarText(v: Decl, last: bool)
    ensures VarLine(INDENT, v, last) == "    " + v.name + (if last then "" else ",") + "  \\* width: " + Numeral(v.width) +
      (if v.depth == 0 then "" else " depth: " + Numeral(v.depth))
  {
  }

  /** The names a list drives are those its entries assign to. */
  lemma DrivenIff(es: seq<Entry>, x: string)
    requires forall k | 0 <= k < |es| :: exists y :: AssignsTo(es[k], y)
    ensures x in BaseNames(es) <==> exists k :: 0 <= k < |es| && AssignsTo(es[k], x)
  {
    forall k, y | 0 <= k < |es| && AssignsTo(es[k], y)
      ensures Base(es[k].0) == y
    {
      BaseIs(es[k], y);
    }
  }
}
