/**
  The sections the bridge prints for Compiler 2, and what the compiler reads back from them.
  */
module Printing {
  import opened Expressions
  import opened Sections

  /** A declared name; depth 0 is a scalar, width 0 an unset width. */
  datatype Decl = Decl(name: string, width: nat, depth: nat)

  /** An action with the assignments it composes to; `hold` marks a pure register hold. */
  datatype Act = Act(name: string, clocked: bool, hold: bool, updates: seq<Entry>)

  /** A refined spec; `next` is what composing its clocked actions gives. */
  datatype Design = Design(
    title: string, vars: seq<Decl>, inputs: seq<(string, nat)>, init: string, acts: seq<Act>, resetAction: Option<string>, next: seq<Entry>)

  // ---------------------------------------------------------------------------
  // The printed text
  // ---------------------------------------------------------------------------

  const INDENT := "    "
  const INIT := "Init"
  const RULE := "--------------------"
  const TITLE := "-------------------- MODULE "
  const DEEP := "          "

  /** The clock and the reset are ports, whatever the spec declares. */
  function Declared(vars: seq<Decl>, port: string): seq<Decl> {
    if vars == [] then []
    else
      var v := vars[0];
      (if v.name == port || v.name == "clk" then [] else [v.(width := if v.width == 0 then 1 else v.width)]) + Declared(vars[1..], port)
  }

  function SizedVars(d: Design, port: string): seq<Decl> {
    Declared(d.vars, port) + [Decl("clk", 1, 0), Decl(port, 1, 0)] +
    seq(|d.inputs|, k requires 0 <= k < |d.inputs| => Decl(d.inputs[k].0, d.inputs[k].1, 0))
  }

  function DepthText(depth: nat): string {
    if depth == 0 then "" else " depth: " + Numeral(depth)
  }

  function VarLine(pad: string, v: Decl, last: bool): Line {
    pad + v.name + (if last then "" else ",") + "  \\* width: " + Numeral(v.width) + DepthText(v.depth)
  }

  function VarLines(vs: seq<Decl>): seq<Line> {
    if vs == [] then [] else [VarLine(INDENT, vs[0], |vs| == 1)] + VarLines(vs[1..])
  }

  function Conj(pad: string, e: Entry): Line {
    pad + "/\\ " + e.0 + "' = " + e.1
  }

  function Conjs(pad: string, es: seq<Entry>): seq<Line> {
    if es == [] then [] else [Conj(pad, es[0])] + Conjs(pad, es[1..])
  }

  predicate IsReset(a: Act, d: Design) {
    d.resetAction == Some(a.name)
  }

  /** The last action carrying the reset's name. */
  function ResetUpdates(acts: seq<Act>, d: Design): Option<seq<Entry>> {
    if acts == [] then None
    else
      var a := acts[|acts| - 1];
      if IsReset(a, d) then Some(a.updates) else ResetUpdates(acts[..|acts| - 1], d)
  }

  /** The actions that are neither the reset, nor clocked, nor a pure hold. */
  function CombActs(acts: seq<Act>, d: Design): seq<Act> {
    if acts == [] then []
    else
      var a := acts[|acts| - 1];
      CombActs(acts[..|acts| - 1], d) + if !IsReset(a, d) && !a.clocked && !a.hold then [a] else []
  }

  function AllUpdates(acts: seq<Act>): seq<Entry> {
    if acts == [] then [] else acts[0].updates + AllUpdates(acts[1..])
  }

  function TitleLine(title: string): Line {
    TITLE + title + (" " + RULE)
  }

  function Footer(title: string): Line {
    seq(49 + |title|, _ => '=')
  }

  function Opening(d: Design, port: string): seq<Line> {
    [TitleLine(d.title), "EXTENDS Integers", "", "VARIABLES"] + VarLines(SizedVars(d, port)) + [""] +
    [INIT + " ==", INDENT + "/\\ " + d.init, ""]
  }

  function CombSection(acts: seq<Act>): seq<Line> {
    if acts == [] then [] else [COMB + " =="] + Conjs(INDENT, AllUpdates(acts)) + [""]
  }

  function ResetLine(port: string, activeLow: bool): Line {
    INDENT + "/\\ IF " + port + " = " + (if activeLow then "0" else "1") + " THEN"
  }

  function PipeLines(reset: Option<seq<Entry>>, next: seq<Entry>, port: string, activeLow: bool): seq<Line> {
    match reset
    case Some(es) => [ResetLine(port, activeLow)] + Conjs(DEEP, es) + ["       ELSE"] + Conjs(DEEP, next)
    case None => Conjs(INDENT, next)
  }

  const CLK_UPDATE: Entry := ("clk", "1 - clk")

  function PipeSection(reset: Option<seq<Entry>>, next: seq<Entry>, port: string, activeLow: bool): seq<Line> {
    [PIPE + " =="] + [Conj(INDENT, CLK_UPDATE)] + PipeLines(reset, next, port, activeLow) + [""]
  }

  function Text(d: Design, port: string, activeLow: bool): seq<Line> {
    Opening(d, port) + CombSection(CombActs(d.acts, d)) +
    PipeSection(ResetUpdates(d.acts, d), d.next, port, activeLow) + [Footer(d.title)]
  }

  method PrintVars(vs: seq<Decl>) returns (lines: seq<Line>)
    ensures lines == VarLines(vs)
  {
    lines := [];
    for i := 0 to |vs|
      invariant lines + VarLines(vs[i..]) == VarLines(vs)
    {
      assert vs[i..][1..] == vs[i + 1..];
      lines := lines + [VarLine(INDENT, vs[i], i == |vs| - 1)];
    }
  }

  method PrintConjs(pad: string, es: seq<Entry>) returns (lines: seq<Line>)
    ensures lines == Conjs(pad, es)
  {
    lines := [];
    for i := 0 to |es|
      invariant lines + Conjs(pad, es[i..]) == Conjs(pad, es)
    {
      assert es[i..][1..] == es[i + 1..];
      lines := lines + [Conj(pad, es[i])];
    }
  }

  /** The actions sorted into reset, clocked and combinational; pure holds are dropped. */
  method SortActions(d: Design) returns (reset: Option<seq<Entry>>, comb: seq<Act>)
    ensures reset == ResetUpdates(d.acts, d) && comb == CombActs(d.acts, d)
  {
    reset, comb := None, [];
    for i := 0 to |d.acts|
      invariant reset == ResetUpdates(d.acts[..i], d) && comb == CombActs(d.acts[..i], d)
    {
      assert d.acts[..i + 1][..i] == d.acts[..i];
      var a := d.acts[i];
      if IsReset(a, d) {
        reset := Some(a.updates);
      } else if !a.clocked && !a.hold {
        comb := comb + [a];
      }
    }
    assert d.acts[..|d.acts|] == d.acts;
  }

  lemma ConjsAppend(pad: string, a: seq<Entry>, b: seq<Entry>)
    ensures Conjs(pad, a + b) == Conjs(pad, a) + Conjs(pad, b)
  {
    if a == [] {
      assert a + b == b;
    } else {
      assert (a + b)[1..] == a[1..] + b;
      ConjsAppend(pad, a[1..], b);
    }
  }

  method PrintComb(acts: seq<Act>) returns (lines: seq<Line>)
    ensures lines == CombSection(acts)
  {
    if acts == [] {
      return [];
    }
    var conjs: seq<Line> := [];
    for i := 0 to |acts|
      invariant conjs + Conjs(INDENT, AllUpdates(acts[i..])) == Conjs(INDENT, AllUpdates(acts))
    {
      assert acts[i..][1..] == acts[i + 1..];
      ConjsAppend(INDENT, acts[i].updates, AllUpdates(acts[i + 1..]));
      var more := PrintConjs(INDENT, acts[i].updates);
      conjs := conjs + more;
    }
    lines := [COMB + " =="] + conjs + [""];
  }

  method PrintPipe(reset: Option<seq<Entry>>, next: seq<Entry>, port: string, activeLow: bool) returns (lines: seq<Line>)
    ensures lines == PipeSection(reset, next, port, activeLow)
  {
    lines := [PIPE + " ==", Conj(INDENT, CLK_UPDATE)];
    match reset
    case Some(es) =>
      var resets := PrintConjs(DEEP, es);
      var nexts := PrintConjs(DEEP, next);
      lines := lines + ([ResetLine(port, activeLow)] + resets + ["       ELSE"] + nexts) + [""];
    case None =>
      var nexts := PrintConjs(INDENT, next);
      lines := lines + nexts + [""];
  }

  /** `engine_spec_to_rtl_tla` */
  method EngineSpecToRtlTla(d: Design, port: string, activeLow: bool) returns (lines: seq<Line>)
    ensures lines == Text(d, port, activeLow)
  {
    var vars := PrintVars(SizedVars(d, port));
    var reset, combActs := SortActions(d);
    var comb := PrintComb(combActs);
    var pipe := PrintPipe(reset, d.next, port, activeLow);
    lines := ([TitleLine(d.title), "EXTENDS Integers", "", "VARIABLES"] + vars + [""] + [INIT + " ==", INDENT + "/\\ " + d.init, ""])
      + comb + pipe + [Footer(d.title)];
  }
}
