/**
  The text between the bridge and Compiler 2: a refined spec printed as sections of lines, and
  read back by the compiler's searches. Proved: the reset list and the next-state list come back
  exactly as they were printed, the declarations exactly unless the title ends in the name of
  their section, and the combinational list exactly unless a combinational action without updates
  opens an empty section.
  */
module Sections {
  import opened Expressions

  /** A line of text, without its line break. */
  type Line = string

  /** A target, possibly indexed, and its right-hand side. */
  type Entry = (string, string)

  const COMB := "CombinationalLogic"
  const PIPE := "UpdatePipeline"

  // ---------------------------------------------------------------------------
  // Characters and searches
  // ---------------------------------------------------------------------------

  predicate Blank(c: char) {
    c == ' ' || '\t' <= c <= '\r'
  }

  predicate Digit(c: char) {
    48 <= c as int <= 57
  }

  predicate Word(c: char) {
    'a' <= c <= 'z' || 'A' <= c <= 'Z' || Digit(c) || c == '_'
  }

  predicate At(s: string, i: nat, t: string) {
    i + |t| <= |s| && s[i..i + |t|] == t
  }

  predicate Starts(s: string, t: string) {
    At(s, 0, t)
  }

  /** The end of the longest run of characters of a kind. */
  function Skip(kind: char -> bool, s: string, i: nat): (j: nat)
    requires i <= |s|
    ensures i <= j <= |s| && (forall k | i <= k < j :: kind(s[k])) && (j < |s| ==> !kind(s[j]))
    decreases |s| - i
  {
    if i < |s| && kind(s[i]) then Skip(kind, s, i + 1) else i
  }

  lemma SkipIs(kind: char -> bool, s: string, i: nat, j: nat)
    requires i <= j <= |s| && (forall k | i <= k < j :: kind(s[k])) && (j < |s| ==> !kind(s[j]))
    ensures Skip(kind, s, i) == j
  {
  }

  function RStrip(s: string): (r: string)
    ensures r <= s && (r != "" ==> !Blank(r[|r| - 1])) && forall k | |r| <= k < |s| :: Blank(s[k])
  {
    if s != "" && Blank(s[|s| - 1]) then RStrip(s[..|s| - 1]) else s
  }

  function LStrip(s: string): string {
    s[Skip(Blank, s, 0)..]
  }

  function Strip(s: string): string {
    LStrip(RStrip(s))
  }

  predicate Trim(s: string) {
    s != "" ==> !Blank(s[0]) && !Blank(s[|s| - 1])
  }

  lemma RStripIs(s: string, r: string)
    requires r <= s && (r != "" ==> !Blank(r[|r| - 1])) && forall k | |r| <= k < |s| :: Blank(s[k])
    ensures RStrip(s) == r
  {
  }

  /** Blanks around a trimmed text are stripped, and nothing else. */
  lemma StripPadded(a: string, s: string, b: string)
    requires Trim(s) && (forall k | 0 <= k < |a| :: Blank(a[k])) && forall k | 0 <= k < |b| :: Blank(b[k])
    ensures Strip(a + s + b) == s
  {
    var w := a + s + b;
    if s == "" {
      RStripIs(w, "");
    } else {
      RStripIs(w, a + s);
      SkipIs(Blank, a + s, 0, |a|);
    }
  }

  lemma StripIsTrim(s: string)
    ensures Trim(Strip(s)) && |Strip(s)| <= |s|
  {
  }

  predicate MarkAt(s: string, k: nat) {
    k + 1 < |s| && s[k] == '\\' && s[k + 1] == '*'
  }

  /** The first comment mark at or after `i`, or the end. */
  function Mark(s: string, i: nat): (j: nat)
    requires i <= |s|
    ensures i <= j <= |s| && (forall k | i <= k < j :: !MarkAt(s, k)) && (j < |s| ==> MarkAt(s, j))
    decreases |s| - i
  {
    if i == |s| || MarkAt(s, i) then i else Mark(s, i + 1)
  }

  predicate Unmarked(s: string) {
    forall k | 0 <= k < |s| :: !MarkAt(s, k)
  }

  /** A line without its comment. */
  function Uncomment(s: string): (r: string)
    ensures r <= s
  {
    s[..Mark(s, 0)]
  }

  /** What the searches see of a line: no comment, no surrounding blanks. */
  function Core(l: Line): string {
    Strip(Uncomment(l))
  }

  function Cores(ls: seq<Line>): (cs: seq<string>)
    ensures |cs| == |ls|
  {
    if ls == [] then [] else [Core(ls[0])] + Cores(ls[1..])
  }

  lemma {:induction false} CoresAt(ls: seq<Line>, k: nat)
    requires k < |ls|
    ensures Cores(ls)[k] == Core(ls[k])
    decreases k
  {
    if k > 0 {
      CoresAt(ls[1..], k - 1);
    }
  }

  lemma {:induction false} CoresAppend(a: seq<Line>, b: seq<Line>)
    ensures Cores(a + b) == Cores(a) + Cores(b)
    decreases |a|
  {
    if a == [] {
      assert a + b == b;
    } else {
      assert (a + b)[1..] == a[1..] + b;
      CoresAppend(a[1..], b);
    }
  }

  lemma CoreOfCore(l: Line)
    ensures Core(RStrip(Uncomment(l))) == Core(l)
  {
    var u := Uncomment(l);
    var r := RStrip(u);
    assert Mark(r, 0) == |r| by {
      forall k | 0 <= k < |r|
        ensures !MarkAt(r, k)
      {
        assert k < Mark(l, 0) && !MarkAt(l, k);
      }
    }
    RStripIs(r, r);
  }

  // ---------------------------------------------------------------------------
  // Conjuncts
  // ---------------------------------------------------------------------------

  /** A line that starts a conjunct. */
  predicate Opens(c: string) {
    Starts(c, "/\\")
  }

  /** Where the target that starts at `i` ends: a word and at most one index, which ends at the first bracket. */
  function TargetEnd(c: string, i: nat): (r: Option<nat>)
    requires i <= |c|
    ensures r.Some? ==> i < r.value <= |c|
  {
    var j := Skip(Word, c, i);
    if j == i then None
    else if j < |c| && c[j] == '[' then
      var k := Skip(x => x != ']', c, j + 1);
      if k < |c| then Some(k + 1) else None
    else Some(j)
  }

  predicate IsTarget(v: string) {
    TargetEnd(v, 0) == Some(|v|)
  }

  /** The end of `' =` at `j`. */
  function EqualsEnd(c: string, j: nat): (r: Option<nat>)
    requires j <= |c|
    ensures r.Some? ==> r.value <= |c|
  {
    if j == |c| || c[j] != '\'' then None
    else
      var k := Skip(Blank, c, j + 1);
      if k == |c| || c[k] != '=' then None else Some(k + 1)
  }

  /** `/\ target' = expression`, or nothing. */
  function ReadConjunct(c: string): Option<Entry> {
    if !Opens(c) then None
    else
      var i := Skip(Blank, c, 2);
      match TargetEnd(c, i)
      case None => None
      case Some(j) =>
        match EqualsEnd(c, j)
        case None => None
        case Some(k) => Some((c[i..j], Strip(c[Skip(Blank, c, k)..])))
  }

  function Current(c: string): seq<string> {
    if c == "" then [] else [c]
  }

  /** What a line completes. */
  function Flushed(c: string, current: string): seq<string> {
    if Opens(c) then Current(current) else []
  }

  /** The conjunct a line leaves open: a line that does not start one continues the one before. */
  function Carried(c: string, current: string): string {
    if Opens(c) then c else if c == "" || current == "" then current else current + " " + c
  }

  /** Conjuncts joined over lines. */
  function Joined(cs: seq<string>, current: string): seq<string> {
    if cs == [] then Current(current)
    else Flushed(cs[0], current) + Joined(cs[1..], Carried(cs[0], current))
  }

  lemma Regroup<T>(a: seq<T>, b: seq<T>, c: seq<T>)
    ensures a + (b + c) == (a + b) + c
  {
  }

  lemma JoinedStep(cs: seq<string>, i: nat, before: seq<string>, current: string)
    requires i < |cs|
    ensures before + Joined(cs[i..], current) ==
      (before + Flushed(cs[i], current)) + Joined(cs[i + 1..], Carried(cs[i], current))
  {
    assert cs[i..][1..] == cs[i + 1..];
    Regroup(before, Flushed(cs[i], current), Joined(cs[i + 1..], Carried(cs[i], current)));
  }

  /** What one stripped line does to the list and to the open conjunct. */
  method Absorb(stripped: string, logical: seq<string>, current: string) returns (out: seq<string>, open: string)
    ensures out == logical + Flushed(stripped, current) && open == Carried(stripped, current)
  {
    out, open := logical, current;
    if stripped != "" {
      if Opens(stripped) {
        if current != "" {
          out := out + [current];
        }
        open := stripped;
      } else if current != "" {
        open := current + " " + stripped;
      }
    }
  }

  /** `_join_conjuncts` */
  method JoinConjuncts(ls: seq<Line>) returns (logical: seq<string>)
    ensures logical == Joined(Cores(ls), "")
  {
    logical := [];
    var current := "";
    for i := 0 to |ls|
      invariant logical + Joined(Cores(ls)[i..], current) == Joined(Cores(ls), "")
    {
      CoresAt(ls, i);
      JoinedStep(Cores(ls), i, logical, current);
      logical, current := Absorb(Core(ls[i]), logical, current);
    }
    if current != "" {
      logical := logical + [current];
    }
  }

  function Base(lhs: string): string {
    Strip(lhs[..Skip(x => x != '[', lhs, 0)])
  }

  /** The ports and the verification variables are not emitted. */
  predicate Emits(port: string, v: string) {
    Base(v) != "clk" && Base(v) != port && !Starts(Base(v), "hw_")
  }

  function Kept(port: string, es: seq<Entry>): seq<Entry> {
    if es == [] then [] else (if Emits(port, es[0].0) then [es[0]] else []) + Kept(port, es[1..])
  }

  function OneAssigned(port: string, c: string): seq<Entry> {
    match ReadConjunct(c)
    case None => []
    case Some(e) => if Emits(port, e.0) then [e] else []
  }

  function Assigned(port: string, cs: seq<string>): seq<Entry> {
    if cs == [] then [] else OneAssigned(port, cs[0]) + Assigned(port, cs[1..])
  }

  // ---------------------------------------------------------------------------
  // Blocks
  // ---------------------------------------------------------------------------

  /** `name ==` at position `p`. */
  predicate HeadAt(l: Line, name: string, p: nat) {
    At(l, p, name) && At(l, Skip(Blank, l, p + |name|), "==")
  }

  /** The end of the first `name ==` at or after `p`. */
  function Head(l: Line, name: string, p: nat): (r: Option<nat>)
    requires p <= |l|
    ensures r.Some? ==> r.value <= |l| && exists q | p <= q :: HeadAt(l, name, q) && r.value == Skip(Blank, l, q + |name|) + 2
    ensures r.None? ==> forall q | p <= q :: !HeadAt(l, name, q)
    decreases |l| - p
  {
    if HeadAt(l, name, p) then Some(Skip(Blank, l, p + |name|) + 2)
    else if p == |l| then None
    else Head(l, name, p + 1)
  }

  /** A line at which a definition ends. */
  predicate Boundary(l: Line) {
    (l != "" && Word(l[0])) || Starts(l, "====")
  }

  function Upto(ends: Line -> bool, ls: seq<Line>): seq<Line> {
    if ls == [] || ends(ls[0]) then [] else [ls[0]] + Upto(ends, ls[1..])
  }

  /** The searches skip every blank behind a section's opening, line breaks included, before they look for its end. */
  function Body(ends: Line -> bool, first: Line, ls: seq<Line>): seq<Line>
    decreases ls
  {
    if LStrip(first) != "" then [LStrip(first)] + Upto(ends, ls)
    else if ls == [] then []
    else Body(ends, ls[0], ls[1..])
  }

  /** `_extract_block` */
  function Block(ls: seq<Line>, name: string): Option<seq<Line>> {
    if ls == [] then None
    else match Head(ls[0], name, 0)
      case Some(r) => Some(Body(Boundary, ls[0][r..], ls[1..]))
      case None => Block(ls[1..], name)
  }

  /** `/\ IF reset` */
  predicate OpensReset(c: string, port: string) {
    Opens(c) &&
    var i := Skip(Blank, c, 2);
    At(c, i, "IF") &&
    var j := Skip(Blank, c, i + 2);
    i + 2 < j && At(c, j, port)
  }

  /** Whether the reset branch is open behind a line. */
  predicate InThen(c: string, port: string, inThen: bool) {
    if inThen then c != "ELSE" else OpensReset(c, port)
  }

  /** The lines that open or close the reset branch, and empty ones, belong to neither side. */
  predicate Passes(c: string, port: string, inThen: bool) {
    c == "" || InThen(c, port, inThen) != inThen
  }

  function Pushed(c: string, inThen: bool, r: (seq<string>, seq<string>)): (seq<string>, seq<string>) {
    if inThen then ([c] + r.0, r.1) else (r.0, [c] + r.1)
  }

  /** The lines of the reset branch, and all others. */
  function SplitReset(cs: seq<string>, port: string, inThen: bool): (seq<string>, seq<string>) {
    if cs == [] then ([], [])
    else
      var r := SplitReset(cs[1..], port, InThen(cs[0], port, inThen));
      if Passes(cs[0], port, inThen) then r else Pushed(cs[0], inThen, r)
  }

  function Behind(a: seq<string>, b: seq<string>, r: (seq<string>, seq<string>)): (seq<string>, seq<string>) {
    (a + r.0, b + r.1)
  }

  /** What a line adds to a side that is open or not. */
  function Added(c: string, open: bool): seq<string> {
    if open then [c] else []
  }

  lemma SplitStep(cs: seq<string>, i: nat, port: string, inThen: bool, a: seq<string>, b: seq<string>)
    requires i < |cs|
    ensures Behind(a, b, SplitReset(cs[i..], port, inThen)) ==
      var stays := !Passes(cs[i], port, inThen);
      Behind(a + Added(cs[i], stays && inThen), b + Added(cs[i], stays && !inThen),
             SplitReset(cs[i + 1..], port, InThen(cs[i], port, inThen)))
  {
    assert cs[i..][1..] == cs[i + 1..];
    var r := SplitReset(cs[i + 1..], port, InThen(cs[i], port, inThen));
    Regroup(a, [cs[i]], r.0);
    Regroup(b, [cs[i]], r.1);
    assert a + [] == a && b + [] == b;
  }

  /** Where a line goes, given what is left of it. */
  method Place(clean: Line, stripped: string, port: string, inThen: bool, thenLines: seq<Line>, elseLines: seq<Line>)
    returns (within: bool, a: seq<Line>, b: seq<Line>)
    ensures within == InThen(stripped, port, inThen)
    ensures var stays := !Passes(stripped, port, inThen);
      && a == thenLines + (if stays && inThen then [clean] else [])
      && b == elseLines + (if stays && !inThen then [clean] else [])
  {
    within, a, b := inThen, thenLines, elseLines;
    if stripped != "" {
      if !inThen && OpensReset(stripped, port) {
        within := true;
      } else if inThen {
        if stripped == "ELSE" {
          within := false;
        } else {
          a := a + [clean];
        }
      } else {
        b := b + [clean];
      }
    }
  }

  lemma CoresAdded(ls: seq<Line>, l: Line, c: string, open: bool)
    requires Core(l) == c
    ensures Cores(ls + if open then [l] else []) == Cores(ls) + Added(c, open)
  {
    CoresAppend(ls, if open then [l] else []);
  }

  /** `_split_reset_else` */
  method SplitResetElse(ls: seq<Line>, port: string) returns (thenLines: seq<Line>, elseLines: seq<Line>)
    ensures (Cores(thenLines), Cores(elseLines)) == SplitReset(Cores(ls), port, false)
  {
    thenLines, elseLines := [], [];
    var inThen := false;
    for i := 0 to |ls|
      invariant Behind(Cores(thenLines), Cores(elseLines), SplitReset(Cores(ls)[i..], port, inThen)) ==
        Behind([], [], SplitReset(Cores(ls), port, false))
    {
      ghost var c := Core(ls[i]);
      CoresAt(ls, i);
      SplitStep(Cores(ls), i, port, inThen, Cores(thenLines), Cores(elseLines));
      CoreOfCore(ls[i]);
      CoresAdded(thenLines, RStrip(Uncomment(ls[i])), c, !Passes(c, port, inThen) && inThen);
      CoresAdded(elseLines, RStrip(Uncomment(ls[i])), c, !Passes(c, port, inThen) && !inThen);
      inThen, thenLines, elseLines := Place(RStrip(Uncomment(ls[i])), Core(ls[i]), port, inThen, thenLines, elseLines);
    }
    SplitEnds(Cores(ls), port, Cores(thenLines), Cores(elseLines), inThen);
  }

  lemma SplitEnds(cs: seq<string>, port: string, a: seq<string>, b: seq<string>, inThen: bool)
    requires Behind(a, b, SplitReset(cs[|cs|..], port, inThen)) == Behind([], [], SplitReset(cs, port, false))
    ensures (a, b) == SplitReset(cs, port, false)
  {
    var r := SplitReset(cs, port, false);
    assert a + [] == a && b + [] == b && [] + r.0 == r.0 && [] + r.1 == r.1;
  }

  // ---------------------------------------------------------------------------
  // Declarations
  // ---------------------------------------------------------------------------

  function Numeral(n: nat): (s: string)
    ensures s != "" && forall k | 0 <= k < |s| :: Digit(s[k])
  {
    if n < 10 then [(48 + n) as char] else Numeral(n / 10) + [(48 + n % 10) as char]
  }

  function DigitValue(c: char): nat
    requires Digit(c)
  {
    c as int - 48
  }

  function Number(s: string): nat
    requires forall k | 0 <= k < |s| :: Digit(s[k])
  {
    if s == "" then 0 else 10 * Number(s[..|s| - 1]) + DigitValue(s[|s| - 1])
  }

  lemma {:induction false} NumberOfNumeral(n: nat)
    ensures Number(Numeral(n)) == n
  {
    if n >= 10 {
      NumberOfNumeral(n / 10);
      assert Numeral(n)[..|Numeral(n)| - 1] == Numeral(n / 10);
    }
  }

  /** `key`, blanks and a numeral at `i`. */
  function Note(s: string, key: string, i: nat): Option<nat> {
    if !At(s, i, key) then None
    else
      var j := Skip(Blank, s, i + |key|);
      var k := Skip(Digit, s, j);
      if j == k then None else Some(Number(s[j..k]))
  }

  /** A comment mark at `p` followed by a width. */
  function WidthAt(l: Line, p: nat): Option<nat> {
    if MarkAt(l, p) then Note(l, "width:", Skip(Blank, l, p + 2)) else None
  }

  function WidthNote(l: Line, p: nat): Option<nat>
    requires p <= |l|
    decreases |l| - p
  {
    if p == |l| then None else if WidthAt(l, p).Some? then WidthAt(l, p) else WidthNote(l, p + 1)
  }

  /** A depth at `p`, as a word of its own. */
  function DepthAt(l: Line, p: nat): Option<nat> {
    if p < |l| && (p == 0 || !Word(l[p - 1])) then Note(l, "depth:", p) else None
  }

  function DepthNote(l: Line, p: nat): Option<nat>
    requires p <= |l|
    decreases |l| - p
  {
    if p == |l| then None else if DepthAt(l, p).Some? then DepthAt(l, p) else DepthNote(l, p + 1)
  }

  function FirstWord(s: string): Option<string> {
    var i := Skip(c => !Word(c), s, 0);
    var j := Skip(Word, s, i);
    if i == j then None else Some(s[i..j])
  }

  /** What the declarations say about sizes. */
  datatype Sizes = Sizes(widths: map<string, nat>, depths: map<string, nat>)

  function Sized(l: Line, z: Sizes): Sizes {
    match WidthNote(l, 0)
    case None => z
    case Some(w) =>
      match FirstWord(Uncomment(l))
      case None => z
      case Some(x) =>
        Sizes(z.widths[x := w], match DepthNote(l, 0) case None => z.depths case Some(d) => z.depths[x := d])
  }

  function AllSized(ls: seq<Line>, z: Sizes): Sizes {
    if ls == [] then z else AllSized(ls[1..], Sized(ls[0], z))
  }

  predicate Separator(c: char) {
    Blank(c) || c == ','
  }

  predicate AllWord(s: string) {
    s != "" && forall k | 0 <= k < |s| :: Word(s[k])
  }

  /** The words between blanks and commas, from `i` on. */
  function Words(s: string, i: nat): seq<string>
    requires i <= |s|
    decreases |s| - i
  {
    var j := Skip(Separator, s, i);
    if j == |s| then []
    else
      var k := Skip(c => !Separator(c), s, j);
      (if AllWord(s[j..k]) then [s[j..k]] else []) + Words(s, k)
  }

  function AllWords(ls: seq<Line>): seq<string> {
    if ls == [] then [] else Words(Uncomment(ls[0]), 0) + AllWords(ls[1..])
  }

  /** `VARIABLES` and a blank, or a line break, at `p`. */
  predicate VarsAt(l: Line, more: bool, p: nat) {
    At(l, p, "VARIABLES") && if p + 9 < |l| then Blank(l[p + 9]) else more
  }

  function VarsHead(l: Line, more: bool, p: nat): (r: Option<nat>)
    requires p <= |l|
    ensures r.Some? ==> 9 <= r.value <= |l| && VarsAt(l, more, r.value - 9)
    decreases |l| - p
  {
    if VarsAt(l, more, p) then Some(p + 9) else if p == |l| then None else VarsHead(l, more, p + 1)
  }

  /** A line that opens a definition, or closes the module. */
  predicate Defines(l: Line) {
    var i := Skip(Blank, l, 0);
    var j := Skip(Word, l, i);
    (i < j && At(l, Skip(Blank, l, j), "==")) || Starts(l, "====")
  }

  /** The lines of the VARIABLES section. */
  function VarsBlock(ls: seq<Line>): Option<seq<Line>> {
    if ls == [] then None
    else match VarsHead(ls[0], |ls| > 1, 0)
      case Some(r) => Some(Body(Defines, ls[0][r..], ls[1..]))
      case None => VarsBlock(ls[1..])
  }

  // ---------------------------------------------------------------------------
  // The compiler's reading passes
  // ---------------------------------------------------------------------------

  function BaseNames(es: seq<Entry>): set<string> {
    set k | 0 <= k < |es| :: Base(es[k].0)
  }

  /** What a block's lines assign. */
  function LinesAssign(port: string, ls: seq<Line>): seq<Entry> {
    Assigned(port, Joined(Cores(ls), ""))
  }

  /** What the combinational search reads. */
  function CombRead(port: string, ls: seq<Line>): seq<Entry> {
    match Block(ls, COMB) case None => [] case Some(b) => LinesAssign(port, b)
  }

  /** What the sequential search reads: the reset list and the next-state list. */
  function SeqRead(port: string, ls: seq<Line>): (seq<Entry>, seq<Entry>) {
    match Block(ls, PIPE)
    case None => ([], [])
    case Some(b) =>
      var (t, e) := SplitReset(Cores(b), port, false);
      (Assigned(port, Joined(t, "")), Assigned(port, Joined(e, "")))
  }

  lemma AssignedStep(port: string, cs: seq<string>, i: nat, before: seq<Entry>)
    requires i < |cs|
    ensures before + Assigned(port, cs[i..]) == (before + OneAssigned(port, cs[i])) + Assigned(port, cs[i + 1..])
  {
    assert cs[i..][1..] == cs[i + 1..];
    Regroup(before, OneAssigned(port, cs[i]), Assigned(port, cs[i + 1..]));
  }

  lemma WordsStep(ls: seq<Line>, i: nat, before: seq<string>)
    requires i < |ls|
    ensures before + AllWords(ls[i..]) == (before + Words(Uncomment(ls[i]), 0)) + AllWords(ls[i + 1..])
  {
    assert ls[i..][1..] == ls[i + 1..];
    Regroup(before, Words(Uncomment(ls[i]), 0), AllWords(ls[i + 1..]));
  }

  method CollectWords(raw: seq<Line>) returns (names: seq<string>)
    ensures names == AllWords(raw)
  {
    names := [];
    for i := 0 to |raw|
      invariant names + AllWords(raw[i..]) == AllWords(raw)
    {
      WordsStep(raw, i, names);
      names := names + Words(Uncomment(raw[i]), 0);
    }
  }

  class Compiler {
    const port: string
    var variables: seq<string>
    var sizes: Sizes
    var combVars: set<string>
    var seqVars: set<string>

    constructor (port: string)
      ensures this.port == port && variables == [] && sizes == Sizes(map[], map[]) && combVars == {} && seqVars == {}
    {
      this.port := port;
      variables, sizes, combVars, seqVars := [], Sizes(map[], map[]), {}, {};
    }

    /** The sizes are noted line by line, before the comments are removed. */
    method NoteSizes(raw: seq<Line>)
      modifies this`sizes
      ensures sizes == AllSized(raw, old(sizes))
    {
      for i := 0 to |raw|
        invariant AllSized(raw[i..], sizes) == AllSized(raw, old(sizes))
      {
        assert raw[i..][1..] == raw[i + 1..];
        sizes := Sized(raw[i], sizes);
      }
    }

    /** `extract_variables` */
    method ExtractVariables(ls: seq<Line>) returns (names: seq<string>)
      modifies this`variables, this`sizes
      ensures match VarsBlock(ls)
        case None => names == [] && variables == old(variables) && sizes == old(sizes)
        case Some(b) => names == variables == AllWords(b) && sizes == AllSized(b, old(sizes))
    {
      match VarsBlock(ls)
      case None => return [];
      case Some(raw) =>
        NoteSizes(raw);
        names := CollectWords(raw);
        variables := names;
    }

    /** A conjunct that is no assignment, or assigns something that is not emitted, is skipped. */
    method Keep(conjunct: string, es: seq<Entry>) returns (out: seq<Entry>)
      ensures out == es + OneAssigned(port, conjunct)
    {
      var e := ReadConjunct(conjunct);
      if e.Some? && Emits(port, e.value.0) {
        out := es + [e.value];
      } else {
        out := es;
      }
    }

    /** `_parse_assignments` */
    method ParseAssignments(ls: seq<Line>) returns (es: seq<Entry>)
      ensures es == LinesAssign(port, ls)
    {
      var conjuncts := JoinConjuncts(ls);
      es := [];
      for i := 0 to |conjuncts|
        invariant es + Assigned(port, conjuncts[i..]) == Assigned(port, conjuncts)
      {
        AssignedStep(port, conjuncts, i, es);
        es := Keep(conjuncts[i], es);
      }
    }

    /** `parse_combinational`, before its right-hand sides are translated */
    method ParseCombinational(ls: seq<Line>) returns (assigns: seq<Entry>)
      modifies this`combVars
      ensures assigns == CombRead(port, ls) && combVars == old(combVars) + BaseNames(assigns)
    {
      match Block(ls, COMB)
      case None => return [];
      case Some(b) =>
        assigns := ParseAssignments(b);
        combVars := combVars + BaseNames(assigns);
    }

    /** `parse_sequential` */
    method ParseSequential(ls: seq<Line>) returns (resets: seq<Entry>, nexts: seq<Entry>)
      modifies this`seqVars
      ensures (resets, nexts) == SeqRead(port, ls) && seqVars == old(seqVars) + BaseNames(resets + nexts)
    {
      match Block(ls, PIPE)
      case None => return [], [];
      case Some(b) =>
        var thenLines, elseLines := SplitResetElse(b, port);
        resets := ParseAssignments(thenLines);
        nexts := ParseAssignments(elseLines);
        seqVars := seqVars + BaseNames(resets + nexts);
    }
  }
}
