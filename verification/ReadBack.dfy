/**
  What Compiler 2 reads back from the text the bridge printed.
  */
module ReadBack {
  import opened Expressions
  import opened Sections
  import opened Printing

  // ---------------------------------------------------------------------------
  // One conjunct
  // ---------------------------------------------------------------------------

  /** No `==` inside. */
  predicate Calm(s: string) {
    forall k | 0 <= k < |s| - 1 :: !(s[k] == '=' && s[k + 1] == '=')
  }

  /** One line, without a comment mark and without `==`. */
  predicate Plain(s: string) {
    '\n' !in s && Calm(s) && Unmarked(s)
  }

  predicate Printable(e: Entry) {
    IsTarget(e.0) && Trim(e.1) && Plain(e.0) && Plain(e.1)
  }

  predicate AllPrintable(es: seq<Entry>) {
    forall k | 0 <= k < |es| :: Printable(es[k])
  }

  predicate AllBlank(s: string) {
    forall k | 0 <= k < |s| :: Blank(s[k])
  }

  lemma PadsBlank()
    ensures AllBlank(INDENT) && AllBlank(DEEP) && INDENT != "" && DEEP != ""
  {
  }

  lemma UnmarkedAppend(a: string, b: string)
    requires Unmarked(a) && Unmarked(b) && (b != "" ==> b[0] != '*')
    ensures Unmarked(a + b)
  {
    var w := a + b;
    forall k | 0 <= k < |w|
      ensures !MarkAt(w, k)
    {
      if k + 1 < |a| {
        assert !MarkAt(a, k);
      } else if |a| <= k {
        assert !MarkAt(b, k - |a|);
      }
    }
  }

  lemma CalmAppend(a: string, b: string)
    requires Calm(a) && Calm(b) && (b != "" ==> b[0] != '=')
    ensures Calm(a + b)
  {
  }

  lemma TargetStart(v: string)
    requires IsTarget(v)
    ensures v != "" && Word(v[0])
  {
  }

  /** A target is read the same inside a conjunct. */
  lemma TargetInside(a: string, v: string, b: string)
    requires IsTarget(v) && b != "" && b[0] == '\''
    ensures TargetEnd(a + v + b, |a|) == Some(|a| + |v|)
  {
    var w := a + v + b;
    var j := Skip(Word, v, 0);
    assert w[|a| + |v|] == '\'';
    SkipIs(Word, w, |a|, |a| + j);
    if j < |v| {
      assert w[|a| + j] == v[j];
      var k := Skip(x => x != ']', v, j + 1);
      SkipIs(x => x != ']', w, |a| + j + 1, |a| + k);
    }
  }

  /** `/\ v' =` and whatever follows. */
  function Assigns(v: string, rest: string): string {
    "/\\ " + v + "' =" + rest
  }

  lemma AssignsShape(v: string, rest: string)
    requires v != "" && !Blank(v[0])
    ensures var c, j := Assigns(v, rest), 3 + |v|;
      && |c| == j + 3 + |rest| && c == "/\\ " + v + ("' =" + rest) && Opens(c) && Skip(Blank, c, 2) == 3
      && c[3..j] == v && c[j] == '\'' && Skip(Blank, c, j + 1) == j + 2 && c[j + 2] == '=' && c[j + 3..] == rest
  {
    var c, j := Assigns(v, rest), 3 + |v|;
    assert c == "/\\ " + v + ("' =" + rest);
    assert c[0] == '/' && c[1] == '\\' && c[2] == ' ' && c[3] == v[0];
    assert c[..2] == "/\\";
    SkipIs(Blank, c, 2, 3);
    assert c[j] == '\'' && c[j + 1] == ' ' && c[j + 2] == '=';
    SkipIs(Blank, c, j + 1, j + 2);
  }

  lemma ReadAt(c: string, j: nat)
    requires 3 <= j && j + 2 < |c| && Opens(c) && Skip(Blank, c, 2) == 3 && TargetEnd(c, 3) == Some(j) && c[j] == '\''
    requires Skip(Blank, c, j + 1) == j + 2 && c[j + 2] == '='
    ensures ReadConjunct(c) == Some((c[3..j], Strip(c[Skip(Blank, c, j + 3)..])))
  {
  }

  lemma ReadAssigns(v: string, rest: string)
    requires IsTarget(v)
    ensures ReadConjunct(Assigns(v, rest)) == Some((v, Strip(rest[Skip(Blank, rest, 0)..])))
  {
    var c, j := Assigns(v, rest), 3 + |v|;
    TargetStart(v);
    AssignsShape(v, rest);
    TargetInside("/\\ ", v, "' =" + rest);
    ReadAt(c, j);
    SkipTail(Blank, c, j + 3, rest);
  }

  lemma SkipTail(kind: char -> bool, c: string, i: nat, rest: string)
    requires i <= |c| && c[i..] == rest
    ensures c[Skip(kind, c, i)..] == rest[Skip(kind, rest, 0)..]
  {
    var k := Skip(kind, rest, 0);
    assert forall m | 0 <= m < |rest| :: c[i + m] == rest[m];
    SkipIs(kind, c, i, i + k);
  }

  function Rest(x: string): string {
    if x == "" then "" else " " + x
  }

  /** What is left of a printed conjunct. */
  function Shown(e: Entry): string {
    Assigns(e.0, Rest(e.1))
  }

  lemma StripTrim(s: string)
    requires Trim(s)
    ensures Strip(s) == s
  {
    StripPadded("", s, "");
    assert "" + s + "" == s;
  }

  lemma ReadShown(e: Entry)
    requires IsTarget(e.0) && Trim(e.1)
    ensures ReadConjunct(Shown(e)) == Some(e)
  {
    ReadAssigns(e.0, Rest(e.1));
    if e.1 != "" {
      SkipIs(Blank, Rest(e.1), 0, 1);
    }
    StripTrim(e.1);
  }

  /** The right-hand side of a conjunct that a line `ELSE` continues. */
  function Continued(x: string): string {
    if x == "" then "ELSE" else x + " ELSE"
  }

  lemma ReadContinued(e: Entry)
    requires IsTarget(e.0) && Trim(e.1)
    ensures ReadConjunct(Shown(e) + " ELSE") == Some((e.0, Continued(e.1)))
  {
    var rest := " " + Continued(e.1);
    assert Rest(e.1) + " ELSE" == rest;
    assert Shown(e) + " ELSE" == Assigns(e.0, rest);
    ReadAssigns(e.0, rest);
    SkipIs(Blank, rest, 0, 1);
    assert rest[1..] == Continued(e.1);
    StripTrim(Continued(e.1));
  }

  lemma ConjUnmarked(pad: string, e: Entry)
    requires AllBlank(pad) && IsTarget(e.0) && Unmarked(e.0) && Unmarked(e.1)
    ensures Unmarked(Conj(pad, e))
  {
    TargetStart(e.0);
    UnmarkedAppend("/\\ ", e.0);
    UnmarkedAppend("/\\ " + e.0, "' = ");
    var c := "/\\ " + e.0 + "' = ";
    forall k | 0 <= k < |c + e.1|
      ensures !MarkAt(c + e.1, k)
    {
      if k + 1 < |c| {
        assert !MarkAt(c, k);
      } else if |c| <= k {
        assert !MarkAt(e.1, k - |c|);
      } else {
        assert c[k] == ' ';
      }
    }
    UnmarkedAppend(pad, c + e.1);
    assert pad + (c + e.1) == Conj(pad, e);
  }

  lemma UncommentUnmarked(s: string)
    requires Unmarked(s)
    ensures Uncomment(s) == s
  {
  }

  lemma ShownTrim(e: Entry)
    requires Trim(e.1)
    ensures Trim(Shown(e))
  {
    var c := Shown(e);
    assert c[0] == '/';
    if e.1 == "" {
      assert c[|c| - 1] == '=';
    } else {
      assert c[|c| - 1] == e.1[|e.1| - 1];
    }
  }

  lemma CoreConj(pad: string, e: Entry)
    requires AllBlank(pad) && IsTarget(e.0) && Trim(e.1) && Unmarked(e.0) && Unmarked(e.1)
    ensures Core(Conj(pad, e)) == Shown(e)
  {
    ConjUnmarked(pad, e);
    UncommentUnmarked(Conj(pad, e));
    ShownTrim(e);
    var tail := if e.1 == "" then " " else "";
    assert pad + Shown(e) + tail == Conj(pad, e);
    StripPadded(pad, Shown(e), tail);
  }

  /** A target cut out of a conjunct is a target. */
  lemma TargetAlone(c: string, i: nat, j: nat)
    requires i <= |c| && TargetEnd(c, i) == Some(j)
    ensures IsTarget(c[i..j])
  {
    var v, k := c[i..j], Skip(Word, c, i);
    assert forall m | 0 <= m < |v| :: v[m] == c[i + m];
    SkipIs(Word, v, 0, k - i);
    if k < j {
      var r := Skip(x => x != ']', c, k + 1);
      assert j == r + 1 && c[r] == ']';
      SkipIs(x => x != ']', v, k - i + 1, r - i);
    }
  }

  lemma SliceUnmarked(s: string, i: nat, j: nat)
    requires Unmarked(s) && i <= j <= |s|
    ensures Unmarked(s[i..j])
  {
    forall k | 0 <= k < j - i
      ensures !MarkAt(s[i..j], k)
    {
      assert !MarkAt(s, i + k);
    }
  }

  lemma StripUnmarked(s: string)
    requires Unmarked(s)
    ensures Unmarked(Strip(s))
  {
    var r := RStrip(s);
    assert r == s[..|r|];
    SliceUnmarked(s, 0, |r|);
    SliceUnmarked(r, Skip(Blank, r, 0), |r|);
    assert r[Skip(Blank, r, 0)..|r|] == Strip(s);
  }

  lemma CoreUnmarked(l: Line)
    ensures Unmarked(Core(l))
  {
    var u := Uncomment(l);
    forall k | 0 <= k < |u|
      ensures !MarkAt(u, k)
    {
      assert !MarkAt(l, k);
    }
    StripUnmarked(u);
  }

  lemma ReadParts(c: string, e: Entry) returns (i: nat, j: nat, r: nat)
    requires ReadConjunct(c) == Some(e)
    ensures i <= j <= |c| && r <= |c| && TargetEnd(c, i) == Some(j) && e.0 == c[i..j] && e.1 == Strip(c[r..])
  {
    i := Skip(Blank, c, 2);
    j := TargetEnd(c, i).value;
    r := Skip(Blank, c, EqualsEnd(c, j).value);
  }

  lemma ReadUnmarked(c: string, e: Entry)
    requires Unmarked(c) && ReadConjunct(c) == Some(e)
    ensures IsTarget(e.0) && Trim(e.1) && Unmarked(e.0) && Unmarked(e.1)
  {
    var i, j, r := ReadParts(c, e);
    PartsUnmarked(c, i, j, r);
  }

  lemma PartsUnmarked(c: string, i: nat, j: nat, r: nat)
    requires Unmarked(c) && i <= j <= |c| && r <= |c| && TargetEnd(c, i) == Some(j)
    ensures IsTarget(c[i..j]) && Trim(Strip(c[r..])) && Unmarked(c[i..j]) && Unmarked(Strip(c[r..]))
  {
    TargetAlone(c, i, j);
    SliceUnmarked(c, i, j);
    SliceUnmarked(c, r, |c|);
    assert c[r..|c|] == c[r..];
    StripUnmarked(c[r..]);
    StripIsTrim(c[r..]);
  }

  /**
    One printed assignment comes back exactly when its target is a name with at most one index, its
    right-hand side carries no blanks around it, and neither holds a comment mark.
    */
  lemma EntryReadsBackIff(pad: string, e: Entry)
    requires AllBlank(pad)
    ensures ReadConjunct(Core(Conj(pad, e))) == Some(e) <==>
      IsTarget(e.0) && Trim(e.1) && Unmarked(e.0) && Unmarked(e.1)
  {
    if IsTarget(e.0) && Trim(e.1) && Unmarked(e.0) && Unmarked(e.1) {
      CoreConj(pad, e);
      ReadShown(e);
    }
    if ReadConjunct(Core(Conj(pad, e))) == Some(e) {
      CoreUnmarked(Conj(pad, e));
      ReadUnmarked(Core(Conj(pad, e)), e);
    }
  }

  /** A printed conjunct is neither the boundary of the reset branch nor its opening. */
  lemma ShownStays(e: Entry, port: string, inThen: bool)
    requires IsTarget(e.0)
    ensures Opens(Shown(e)) && !Passes(Shown(e), port, inThen)
  {
    var c, v := Shown(e), e.0;
    TargetStart(v);
    AssignsShape(v, Rest(e.1));
    assert c[0] == '/' && c != "ELSE";
    if At(c, 3, "IF") {
      assert c[3..5][0] == 'I' && c[3..5][1] == 'F';
      IfTarget(v, c);
    }
  }

  /** A target that begins with `IF` goes on with something that is no blank. */
  lemma IfTarget(v: string, c: string)
    requires IsTarget(v) && |v| + 3 < |c| && c[3..3 + |v|] == v && c[3 + |v|] == '\''
    requires c[3] == 'I' && c[4] == 'F'
    ensures !Blank(c[5]) && Skip(Blank, c, 5) == 5
  {
    assert forall k | 0 <= k < |v| :: c[3 + k] == v[k];
    var j := Skip(Word, v, 0);
    if |v| == 1 {
      assert false;
    } else if |v| > 2 {
      assert v[0] == 'I' && v[1] == 'F';
      assert j >= 2;
      assert j == 2 ==> v[2] == '[';
    }
  }

  // ---------------------------------------------------------------------------
  // Lists of conjuncts
  // ---------------------------------------------------------------------------

  function Showns(es: seq<Entry>): (r: seq<string>)
    ensures |r| == |es|
  {
    if es == [] then [] else [Shown(es[0])] + Showns(es[1..])
  }

  lemma {:induction false} ShownsAt(es: seq<Entry>, k: nat)
    requires k < |es|
    ensures Showns(es)[k] == Shown(es[k])
    decreases k
  {
    if k > 0 {
      ShownsAt(es[1..], k - 1);
    }
  }

  lemma {:induction false} CoresConjs(pad: string, es: seq<Entry>)
    requires AllBlank(pad) && AllPrintable(es)
    ensures Cores(Conjs(pad, es)) == Showns(es)
  {
    if es != [] {
      CoreConj(pad, es[0]);
      CoresConjs(pad, es[1..]);
      var ls := Conjs(pad, es);
      assert ls[0] == Conj(pad, es[0]) && ls[1..] == Conjs(pad, es[1..]);
    }
  }

  /** What follows starts a conjunct of its own, if anything follows. */
  predicate Settled(cs: seq<string>) {
    cs == [] || if cs[0] == "" then Settled(cs[1..]) else Opens(cs[0])
  }

  lemma JoinedEmpty(rest: seq<string>, current: string)
    ensures Joined([""] + rest, current) == Joined(rest, current)
  {
    assert ([""] + rest)[1..] == rest;
    assert !Opens("");
    assert [] + Joined(rest, current) == Joined(rest, current);
  }

  lemma JoinedOpens(x: string, rest: seq<string>, current: string)
    requires Opens(x)
    ensures Joined([x] + rest, current) == Current(current) + Joined(rest, x)
  {
    assert ([x] + rest)[1..] == rest;
  }

  lemma {:induction false} JoinedFlush(cs: seq<string>, current: string)
    requires Settled(cs)
    ensures Joined(cs, current) == Current(current) + Joined(cs, "")
    decreases |cs|
  {
    if cs != [] {
      assert cs == [cs[0]] + cs[1..];
      if cs[0] == "" {
        JoinedFlush(cs[1..], current);
        JoinedEmpty(cs[1..], current);
        JoinedEmpty(cs[1..], "");
      } else {
        JoinedOpens(cs[0], cs[1..], current);
        JoinedOpens(cs[0], cs[1..], "");
        assert [] + Joined(cs[1..], cs[0]) == Joined(cs[1..], cs[0]);
      }
    }
  }

  predicate AllOpen(cs: seq<string>) {
    forall k | 0 <= k < |cs| :: Opens(cs[k])
  }

  lemma JoinedFirst(x: string, rest: seq<string>)
    requires Opens(x) && Settled(rest)
    ensures Joined([x] + rest, "") == [x] + Joined(rest, "") && Settled([x] + rest)
  {
    assert ([x] + rest)[1..] == rest;
    JoinedFlush(rest, x);
  }

  /** Conjuncts on one line each are joined to themselves. */
  lemma {:induction false} JoinedOpen(cs: seq<string>, tail: seq<string>)
    requires AllOpen(cs) && Settled(tail)
    ensures Joined(cs + tail, "") == cs + Joined(tail, "") && Settled(cs + tail)
    decreases |cs|
  {
    if cs == [] {
      assert cs + tail == tail && cs + Joined(tail, "") == Joined(tail, "");
    } else {
      var x, rest := cs[0], cs[1..];
      assert cs == [x] + rest;
      Regroup([x], rest, tail);
      Regroup([x], rest, Joined(tail, ""));
      JoinedOpen(rest, tail);
      JoinedFirst(x, rest + tail);
    }
  }

  predicate Reads(cs: seq<string>, es: seq<Entry>) {
    |cs| == |es| && forall k | 0 <= k < |es| :: ReadConjunct(cs[k]) == Some(es[k])
  }

  lemma AssignedFirst(port: string, x: string, rest: seq<string>, e: Entry)
    requires ReadConjunct(x) == Some(e)
    ensures Assigned(port, [x] + rest) == (if Emits(port, e.0) then [e] else []) + Assigned(port, rest)
  {
    assert ([x] + rest)[1..] == rest;
  }

  lemma {:induction false} AssignedReads(port: string, cs: seq<string>, es: seq<Entry>, tail: seq<string>)
    requires Reads(cs, es)
    ensures Assigned(port, cs + tail) == Kept(port, es) + Assigned(port, tail)
    decreases |es|
  {
    if es == [] {
      assert cs + tail == tail;
    } else {
      assert cs + tail == [cs[0]] + (cs[1..] + tail);
      AssignedFirst(port, cs[0], cs[1..] + tail, es[0]);
      AssignedReads(port, cs[1..], es[1..], tail);
      Regroup(if Emits(port, es[0].0) then [es[0]] else [], Kept(port, es[1..]), Assigned(port, tail));
    }
  }

  lemma ShownsOpen(es: seq<Entry>)
    requires AllPrintable(es)
    ensures AllOpen(Showns(es)) && Reads(Showns(es), es)
  {
    forall k | 0 <= k < |es|
      ensures Opens(Showns(es)[k]) && ReadConjunct(Showns(es)[k]) == Some(es[k])
    {
      ShownsAt(es, k);
      ShownStays(es[k], "", false);
      ReadShown(es[k]);
    }
  }

  /** A printed list is read back entry by entry, in front of anything that starts afresh. */
  lemma ListReadsBack(port: string, es: seq<Entry>, tail: seq<string>)
    requires AllPrintable(es) && Settled(tail)
    ensures Assigned(port, Joined(Showns(es) + tail, "")) == Kept(port, es) + Assigned(port, Joined(tail, ""))
  {
    ShownsOpen(es);
    JoinedOpen(Showns(es), tail);
    AssignedReads(port, Showns(es), es, Joined(tail, ""));
  }

  lemma SplitFirst(x: string, rest: seq<string>, port: string, inThen: bool)
    requires !Passes(x, port, inThen)
    ensures SplitReset([x] + rest, port, inThen) == Pushed(x, inThen, SplitReset(rest, port, inThen))
  {
  }

  /** Lines that neither open nor close the reset branch stay on their side. */
  lemma {:induction false} SplitRun(cs: seq<string>, tail: seq<string>, port: string, inThen: bool)
    requires forall k | 0 <= k < |cs| :: !Passes(cs[k], port, inThen)
    ensures var r := SplitReset(tail, port, inThen);
      SplitReset(cs + tail, port, inThen) == if inThen then (cs + r.0, r.1) else (r.0, cs + r.1)
    decreases |cs|
  {
    var r := SplitReset(tail, port, inThen);
    if cs == [] {
      assert cs + tail == tail && [] + r.0 == r.0 && [] + r.1 == r.1;
    } else {
      assert cs + tail == [cs[0]] + (cs[1..] + tail);
      SplitFirst(cs[0], cs[1..] + tail, port, inThen);
      SplitRun(cs[1..], tail, port, inThen);
      assert [cs[0]] + (cs[1..] + r.0) == cs + r.0 && [cs[0]] + (cs[1..] + r.1) == cs + r.1;
    }
  }

  lemma SplitShowns(es: seq<Entry>, tail: seq<string>, port: string, inThen: bool)
    requires AllPrintable(es)
    ensures var r := SplitReset(tail, port, inThen);
      SplitReset(Showns(es) + tail, port, inThen) == if inThen then (Showns(es) + r.0, r.1) else (r.0, Showns(es) + r.1)
  {
    forall k | 0 <= k < |es|
      ensures !Passes(Showns(es)[k], port, inThen)
    {
      ShownsAt(es, k);
      ShownStays(es[k], port, inThen);
    }
    SplitRun(Showns(es), tail, port, inThen);
  }

  // ---------------------------------------------------------------------------
  // Finding the sections
  // ---------------------------------------------------------------------------

  lemma HeadChars(l: Line, name: string, q: nat)
    requires HeadAt(l, name, q)
    ensures var j := Skip(Blank, l, q + |name|);
      && q + |name| <= j && j + 1 < |l| && l[j] == '=' && l[j + 1] == '='
      && (j > q + |name| ==> Blank(l[q + |name|])) && forall k | 0 <= k < |name| :: l[q + k] == name[k]
  {
    var j := Skip(Blank, l, q + |name|);
    assert l[j..j + 2][0] == '=' && l[j..j + 2][1] == '=';
    forall k | 0 <= k < |name|
      ensures l[q + k] == name[k]
    {
      assert l[q..q + |name|][k] == name[k];
    }
  }

  lemma CalmHasNoHead(l: Line, name: string)
    requires Calm(l)
    ensures Head(l, name, 0) == None
  {
    if Head(l, name, 0).Some? {
      var q: nat :| HeadAt(l, name, q);
      HeadChars(l, name, q);
      assert false;
    }
  }

  lemma KeyChars(key: string)
    ensures var l := key + " ==";
      && l[|key|] == ' ' && l[|key| + 1] == '=' && l[|key| + 2] == '=' && forall k | 0 <= k < |key| :: l[k] == key[k]
  {
  }

  /** A line opening the section of another name. */
  lemma OtherHead(key: string, name: string)
    requires AllWord(key) && AllWord(name) && (|name| > |key| || key[|key| - 1] != name[|name| - 1])
    ensures Head(key + " ==", name, 0) == None
  {
    var l := key + " ==";
    if Head(l, name, 0).Some? {
      var q: nat :| HeadAt(l, name, q);
      OtherHeadAt(l, key, name, q);
    }
  }

  lemma OtherHeadAt(l: Line, key: string, name: string, q: nat)
    requires AllWord(key) && AllWord(name) && (|name| > |key| || key[|key| - 1] != name[|name| - 1])
    requires l == key + " =="
    ensures !HeadAt(l, name, q)
  {
    if HeadAt(l, name, q) {
      HeadChars(l, name, q);
      KeyChars(key);
    }
  }

  lemma OwnHeadAt(l: Line, name: string)
    requires |l| == |name| + 3 && l[..|name|] == name && l[|name|] == ' ' && At(l, |name| + 1, "==") && l[|name| + 1] == '='
    ensures Head(l, name, 0) == Some(|name| + 3)
  {
    SkipIs(Blank, l, |name|, |name| + 1);
    assert HeadAt(l, name, 0);
  }

  lemma OwnHead(name: string)
    requires AllWord(name)
    ensures Head(name + " ==", name, 0) == Some(|name| + 3)
  {
    var l := name + " ==";
    KeyChars(name);
    assert l[|name| + 1..|name| + 3] == "==";
    OwnHeadAt(l, name);
  }

  lemma {:induction false} UptoAll(ends: Line -> bool, a: seq<Line>, b: seq<Line>)
    requires (forall k | 0 <= k < |a| :: !ends(a[k])) && (b == [] || ends(b[0]))
    ensures Upto(ends, a + b) == a
    decreases |a|
  {
    if a == [] {
      assert a + b == b;
    } else {
      assert (a + b)[1..] == a[1..] + b;
      UptoAll(ends, a[1..], b);
    }
  }

  lemma {:induction false} BlockBehind(pre: seq<Line>, ls: seq<Line>, name: string)
    requires forall k | 0 <= k < |pre| :: Head(pre[k], name, 0) == None
    ensures Block(pre + ls, name) == Block(ls, name)
    decreases |pre|
  {
    if pre == [] {
      assert pre + ls == ls;
    } else {
      assert (pre + ls)[1..] == pre[1..] + ls;
      BlockBehind(pre[1..], ls, name);
    }
  }

  lemma BodyFound(ends: Line -> bool, first: Line, rest: seq<Line>)
    requires LStrip(first) != ""
    ensures Body(ends, "", [first] + rest) == [LStrip(first)] + Upto(ends, rest)
  {
    assert ([first] + rest)[1..] == rest;
    assert LStrip("") == "";
  }

  lemma BlockHere(head: Line, rest: seq<Line>, name: string, r: nat)
    requires Head(head, name, 0) == Some(r) && head[r..] == ""
    ensures Block([head] + rest, name) == Some(Body(Boundary, "", rest))
  {
    assert ([head] + rest)[1..] == rest;
  }

  /** The lines behind a section's opening up to the next boundary, if the first of them is not blank. */
  lemma BlockFound(pre: seq<Line>, name: string, first: Line, body: seq<Line>, post: seq<Line>)
    requires (forall k | 0 <= k < |pre| :: Head(pre[k], name, 0) == None) && AllWord(name)
    requires LStrip(first) != "" && (forall k | 0 <= k < |body| :: !Boundary(body[k])) && (post == [] || Boundary(post[0]))
    ensures Block(pre + ([name + " =="] + ([first] + (body + post))), name) == Some([LStrip(first)] + body)
  {
    BlockBehind(pre, [name + " =="] + ([first] + (body + post)), name);
    OwnHead(name);
    BlockHere(name + " ==", [first] + (body + post), name, |name| + 3);
    BodyFound(Boundary, first, body + post);
    UptoAll(Boundary, body, post);
  }

  // ---------------------------------------------------------------------------
  // The lines of the printed text
  // ---------------------------------------------------------------------------

  ghost predicate Headless(ls: seq<Line>, name: string) {
    forall k | 0 <= k < |ls| :: Head(ls[k], name, 0) == None
  }

  /** No character of the line is `=`. */
  predicate NoEq(s: string) {
    forall k | 0 <= k < |s| :: s[k] != '='
  }

  lemma NoEqAppend(a: string, b: string)
    requires NoEq(a) && NoEq(b)
    ensures NoEq(a + b) && Calm(a + b)
  {
  }

  lemma VarLineHeadless(pad: string, v: Decl, last: bool, name: string)
    requires AllBlank(pad) && AllWord(v.name)
    ensures Head(VarLine(pad, v, last), name, 0) == None
  {
    var a, b, c := pad + v.name + (if last then "" else ","), "  \\* width: ", Numeral(v.width);
    assert NoEq(" depth: ");
    NoEqAppend(pad, v.name);
    NoEqAppend(pad + v.name, if last then "" else ",");
    NoEqAppend(a, b);
    NoEqAppend(a + b, c);
    NoEqAppend(" depth: ", Numeral(v.depth));
    NoEqAppend(a + b + c, DepthText(v.depth));
    CalmHasNoHead(VarLine(pad, v, last), name);
  }

  lemma {:induction false} VarLinesHeadless(vs: seq<Decl>, name: string)
    requires forall k | 0 <= k < |vs| :: AllWord(vs[k].name)
    ensures Headless(VarLines(vs), name)
  {
    PadsBlank();
    if vs != [] {
      VarLineHeadless(INDENT, vs[0], |vs| == 1, name);
      VarLinesHeadless(vs[1..], name);
    }
  }

  lemma ConjCalm(pad: string, e: Entry)
    requires AllBlank(pad) && Printable(e)
    ensures Calm(Conj(pad, e))
  {
    TargetStart(e.0);
    NoEqAppend(pad, "/\\ ");
    CalmAppend(pad + "/\\ ", e.0);
    CalmAppend(pad + "/\\ " + e.0, "' = ");
    var c := pad + "/\\ " + e.0 + "' = ";
    assert c[|c| - 1] == ' ';
    CalmBehind(c, e.1);
  }

  lemma CalmBehind(a: string, b: string)
    requires Calm(a) && Calm(b) && a != "" && a[|a| - 1] != '='
    ensures Calm(a + b)
  {
  }

  lemma {:induction false} ConjsHeadless(pad: string, es: seq<Entry>, name: string)
    requires AllBlank(pad) && AllPrintable(es)
    ensures Headless(Conjs(pad, es), name)
  {
    if es != [] {
      ConjCalm(pad, es[0]);
      CalmHasNoHead(Conj(pad, es[0]), name);
      ConjsHeadless(pad, es[1..], name);
    }
  }

  /** A line that begins with a blank, or is empty, lies inside its section. */
  predicate Indented(ls: seq<Line>) {
    forall k | 0 <= k < |ls| :: ls[k] == "" || Blank(ls[k][0])
  }

  lemma RuleStarts(l: Line)
    ensures Starts(l, "====") ==> l != "" && l[0] == '='
  {
    if Starts(l, "====") {
      assert l[0] == l[0..4][0];
    }
  }

  lemma IndentedInside(ls: seq<Line>)
    requires Indented(ls)
    ensures forall k | 0 <= k < |ls| :: !Boundary(ls[k])
  {
    forall k | 0 <= k < |ls|
      ensures !Boundary(ls[k])
    {
      RuleStarts(ls[k]);
    }
  }

  lemma {:induction false} ConjsIndented(pad: string, es: seq<Entry>)
    requires pad != "" && AllBlank(pad)
    ensures Indented(Conjs(pad, es))
  {
    if es != [] {
      ConjsIndented(pad, es[1..]);
    }
  }

  lemma MarkIs(s: string, j: nat)
    requires j <= |s| && (forall k | 0 <= k < j :: !MarkAt(s, k)) && (j < |s| ==> MarkAt(s, j))
    ensures Mark(s, 0) == j
  {
  }

  lemma StripLead(a: string, y: string)
    requires AllBlank(a) && (y != "" ==> !Blank(y[0]))
    ensures Strip(a + y) == Strip(y)
  {
    var r := RStrip(y);
    if r == "" {
      RStripIs(a + y, "");
    } else {
      RStripIs(a + y, a + r);
      SkipIs(Blank, a + r, 0, |a|);
      assert (a + r)[|a|..] == r;
    }
  }

  /** A comment starts where it starts behind the blanks. */
  lemma UncommentLead(l: Line, a: nat)
    requires a <= |l| && forall k | 0 <= k < a :: Blank(l[k])
    ensures Uncomment(l) == l[..a] + Uncomment(l[a..])
  {
    var x := l[a..];
    var m := Mark(x, 0);
    forall k | 0 <= k < a + m
      ensures !MarkAt(l, k)
    {
      if k >= a {
        assert !MarkAt(x, k - a);
      }
    }
    assert m < |x| ==> MarkAt(x, m);
    MarkIs(l, a + m);
  }

  /** Blanks in front of a line make no difference. */
  lemma CoreLStrip(l: Line)
    ensures Core(LStrip(l)) == Core(l)
  {
    var a := Skip(Blank, l, 0);
    UncommentLead(l, a);
    StripLead(l[..a], Uncomment(l[a..]));
  }

  // ---------------------------------------------------------------------------
  // Reading the pipeline section
  // ---------------------------------------------------------------------------

  predicate AllNamed(ds: seq<Decl>) {
    forall k | 0 <= k < |ds| :: AllWord(ds[k].name)
  }

  /** Texts the sections can carry: names are words, every text is one line and free of `==` and comment marks. */
  ghost predicate WellTexted(d: Design, port: string) {
    && AllWord(d.title) && AllWord(port) && AllNamed(d.vars) && (forall k | 0 <= k < |d.inputs| :: AllWord(d.inputs[k].0))
    && Plain(d.init) && AllPrintable(d.next) && forall k | 0 <= k < |d.acts| :: AllPrintable(d.acts[k].updates)
  }

  lemma WordCalm(s: string)
    requires AllWord(s)
    ensures NoEq(s) && Unmarked(s) && Trim(s)
  {
  }

  lemma ClkPrintable()
    ensures Printable(CLK_UPDATE)
  {
    SkipIs(Word, "clk", 0, 3);
  }

  lemma ClkDropped(port: string, es: seq<Entry>)
    ensures Kept(port, [CLK_UPDATE] + es) == Kept(port, es)
  {
    SkipIs(x => x != '[', "clk", 0, 3);
    assert "clk"[..3] == "clk";
    StripTrim("clk");
    assert Base("clk") == "clk";
    assert ([CLK_UPDATE] + es)[1..] == es;
  }

  function ResetCore(port: string, activeLow: bool): string {
    "/\\ IF " + port + " = " + (if activeLow then "0" else "1") + " THEN"
  }

  lemma ResetCoreOpens(port: string, activeLow: bool)
    requires AllWord(port)
    ensures var c := ResetCore(port, activeLow); Opens(c) && OpensReset(c, port)
  {
    var c := ResetCore(port, activeLow);
    assert c[0] == '/' && c[1] == '\\' && c[2] == ' ' && c[3] == 'I' && c[4] == 'F' && c[5] == ' ' && c[6] == port[0];
    assert c[..2] == "/\\" && c[3..5] == "IF";
    SkipIs(Blank, c, 2, 3);
    SkipIs(Blank, c, 5, 6);
    assert c[6..6 + |port|] == port;
  }

  lemma CoreResetLine(port: string, activeLow: bool)
    requires AllWord(port)
    ensures Core(ResetLine(port, activeLow)) == ResetCore(port, activeLow)
  {
    PadsBlank();
    var a, b := "/\\ IF ", " = " + (if activeLow then "0" else "1") + " THEN";
    var c := ResetCore(port, activeLow);
    WordCalm(port);
    UnmarkedAppend(a, port);
    UnmarkedAppend(a + port, b);
    assert a + port + b == c;
    UnmarkedAppend(INDENT, c);
    assert INDENT + c == ResetLine(port, activeLow);
    UncommentUnmarked(ResetLine(port, activeLow));
    assert c[0] == '/' && c[|c| - 1] == 'N';
    StripPadded(INDENT, c, "");
    assert INDENT + c + "" == ResetLine(port, activeLow);
  }

  /** No assignment is read from the line that opens the reset branch, whatever continues it. */
  lemma IfUnread(c: string)
    requires |c| > 5 && c[0] == '/' && c[1] == '\\' && c[2] == ' ' && c[3] == 'I' && c[4] == 'F' && c[5] == ' '
    ensures ReadConjunct(c) == None
  {
    SkipIs(Blank, c, 2, 3);
    SkipIs(Word, c, 3, 5);
  }

  function ResetList(reset: Option<seq<Entry>>): seq<Entry> {
    if reset.Some? then reset.value else []
  }

  /** The stripped lines of the pipeline section behind its opening. */
  function PipeCores(reset: Option<seq<Entry>>, next: seq<Entry>, port: string, activeLow: bool): seq<string> {
    match reset
    case Some(es) => [ResetCore(port, activeLow)] + (Showns(es) + (["ELSE"] + (Showns(next) + [""])))
    case None => Showns(next) + [""]
  }

  lemma CoreElse()
    ensures Core("       ELSE") == "ELSE" && Core("") == ""
  {
    UncommentUnmarked("       ELSE");
    StripPadded("       ", "ELSE", "");
    assert "       " + "ELSE" + "" == "       ELSE";
  }

  lemma Regroup5<T>(a: seq<T>, b: seq<T>, c: seq<T>, d: seq<T>, e: seq<T>)
    ensures a + b + c + d + e == a + (b + (c + (d + e)))
  {
    Regroup(a, b, c);
    Regroup(a, b + c, d);
    Regroup(b, c, d);
    Regroup(a, b + (c + d), e);
    Regroup(b, c + d, e);
    Regroup(c, d, e);
  }

  lemma CoresFive(a: seq<Line>, b: seq<Line>, c: seq<Line>, d: seq<Line>, e: seq<Line>)
    ensures Cores(a + b + c + d + e) == Cores(a) + (Cores(b) + (Cores(c) + (Cores(d) + Cores(e))))
  {
    Regroup5(a, b, c, d, e);
    CoresAppend(d, e);
    CoresAppend(c, d + e);
    CoresAppend(b, c + (d + e));
    CoresAppend(a, b + (c + (d + e)));
  }

  lemma CoresOne(l: Line)
    ensures Cores([l]) == [Core(l)]
  {
  }

  lemma CoresBranches(line: Line, core: string, es: seq<Line>, es': seq<string>, els: Line, next: seq<Line>, next': seq<string>)
    requires Core(line) == core && Core(els) == "ELSE" && Core("") == "" && Cores(es) == es' && Cores(next) == next'
    ensures Cores([line] + es + [els] + next + [""]) == [core] + (es' + (["ELSE"] + (next' + [""])))
  {
    CoresOne(line);
    CoresOne(els);
    CoresOne("");
    CoresFive([line], es, [els], next, [""]);
  }

  lemma CoresReset(es: seq<Entry>, next: seq<Entry>, port: string, activeLow: bool)
    requires AllWord(port) && AllPrintable(es) && AllPrintable(next)
    ensures Cores([ResetLine(port, activeLow)] + Conjs(DEEP, es) + ["       ELSE"] + Conjs(DEEP, next) + [""]) ==
      [ResetCore(port, activeLow)] + (Showns(es) + (["ELSE"] + (Showns(next) + [""])))
  {
    PadsBlank();
    CoreElse();
    CoreResetLine(port, activeLow);
    CoresConjs(DEEP, es);
    CoresConjs(DEEP, next);
    CoresBranches(ResetLine(port, activeLow), ResetCore(port, activeLow), Conjs(DEEP, es), Showns(es), "       ELSE", Conjs(DEEP, next), Showns(next));
  }

  lemma CoresPipe(reset: Option<seq<Entry>>, next: seq<Entry>, port: string, activeLow: bool)
    requires AllWord(port) && AllPrintable(next) && (reset.Some? ==> AllPrintable(reset.value))
    ensures Cores(PipeLines(reset, next, port, activeLow) + [""]) == PipeCores(reset, next, port, activeLow)
  {
    PadsBlank();
    match reset
    case None =>
      CoreElse();
      CoresOne("");
      CoresConjs(INDENT, next);
      CoresAppend(Conjs(INDENT, next), [""]);
    case Some(es) =>
      CoresReset(es, next, port, activeLow);
  }

  /** The two sides of the pipeline section. */
  lemma SplitPipe(reset: Option<seq<Entry>>, next: seq<Entry>, port: string, activeLow: bool)
    requires AllWord(port) && AllPrintable(next) && (reset.Some? ==> AllPrintable(reset.value))
    ensures SplitReset([Shown(CLK_UPDATE)] + PipeCores(reset, next, port, activeLow), port, false) ==
      (Showns(ResetList(reset)), Showns([CLK_UPDATE] + next))
  {
    ClkPrintable();
    ShownStays(CLK_UPDATE, port, false);
    var cs := PipeCores(reset, next, port, activeLow);
    SplitFirst(Shown(CLK_UPDATE), cs, port, false);
    SplitShowns(next, [""], port, false);
    assert SplitReset([""], port, false) == ([], []);
    assert Showns([CLK_UPDATE] + next) == [Shown(CLK_UPDATE)] + Showns(next);
    assert Showns(next) + [] == Showns(next);
    if reset.Some? {
      var es := reset.value;
      var rest := ["ELSE"] + (Showns(next) + [""]);
      ResetCoreOpens(port, activeLow);
      SplitTurns(ResetCore(port, activeLow), Showns(es) + rest, port, false);
      SplitShowns(es, rest, port, true);
      SplitTurns("ELSE", Showns(next) + [""], port, true);
      assert Showns(es) + [] == Showns(es);
    }
  }

  lemma SplitTurns(x: string, rest: seq<string>, port: string, inThen: bool)
    requires InThen(x, port, inThen) != inThen
    ensures SplitReset([x] + rest, port, inThen) == SplitReset(rest, port, !inThen)
  {
    assert ([x] + rest)[1..] == rest;
  }

  // ---------------------------------------------------------------------------
  // The sequential lists come back
  // ---------------------------------------------------------------------------

  lemma HeadlessAppend(a: seq<Line>, b: seq<Line>, name: string)
    requires Headless(a, name) && Headless(b, name)
    ensures Headless(a + b, name)
  {
  }

  lemma OneHeadless(l: Line, name: string)
    requires Calm(l)
    ensures Headless([l], name)
  {
    CalmHasNoHead(l, name);
  }

  lemma SizedVarsNamed(d: Design, port: string)
    requires WellTexted(d, port)
    ensures AllNamed(SizedVars(d, port))
  {
    DeclaredNamed(d.vars, port);
  }

  lemma {:induction false} DeclaredNamed(vars: seq<Decl>, port: string)
    requires AllNamed(vars)
    ensures AllNamed(Declared(vars, port))
  {
    if vars != [] {
      DeclaredNamed(vars[1..], port);
    }
  }

  lemma TitleLiterals()
    ensures |TITLE| == 28 && NoEq(TITLE) && 'V' !in TITLE
    ensures var b := " " + RULE; NoEq(b) && 'V' !in b && 'S' !in b && b != "" && b[0] == ' '
    ensures RULE != "" && RULE[0] == '-'
  {
  }

  lemma TitleCalm(title: string)
    requires AllWord(title)
    ensures Calm(TitleLine(title))
  {
    WordCalm(title);
    TitleLiterals();
    NoEqAppend(TITLE, title);
    NoEqAppend(TITLE + title, " " + RULE);
  }

  lemma InitLineCalm(init: string)
    requires Plain(init)
    ensures Calm(INDENT + "/\\ " + init)
  {
    NoEqAppend(INDENT, "/\\ ");
    CalmBehind(INDENT + "/\\ ", init);
  }

  lemma ThreeHeadless(a: Line, b: Line, c: Line, name: string)
    requires Head(a, name, 0) == None && Calm(b) && Calm(c)
    ensures Headless([a, b, c], name)
  {
    CalmHasNoHead(b, name);
    CalmHasNoHead(c, name);
  }

  lemma InitHeadless(init: string, name: string)
    requires Plain(init) && AllWord(name) && |name| > 4
    ensures Headless([INIT + " ==", INDENT + "/\\ " + init, ""], name)
  {
    OtherHead(INIT, name);
    InitLineCalm(init);
    ThreeHeadless(INIT + " ==", INDENT + "/\\ " + init, "", name);
  }

  lemma HeaderHeadless(title: string, name: string)
    requires AllWord(title)
    ensures Headless([TitleLine(title), "EXTENDS Integers", "", "VARIABLES"], name)
  {
    TitleCalm(title);
    var ext, vars := "EXTENDS Integers", "VARIABLES";
    assert NoEq(ext) && NoEq(vars);
    FourCalm(TitleLine(title), ext, "", vars, name);
  }

  lemma FourCalm(a: Line, b: Line, c: Line, d: Line, name: string)
    requires Calm(a) && Calm(b) && Calm(c) && Calm(d)
    ensures Headless([a, b, c, d], name)
  {
    CalmHasNoHead(a, name);
    CalmHasNoHead(b, name);
    CalmHasNoHead(c, name);
    CalmHasNoHead(d, name);
  }

  lemma FourHeadless(a: seq<Line>, b: seq<Line>, c: seq<Line>, d: seq<Line>, name: string)
    requires Headless(a, name) && Headless(b, name) && Headless(c, name) && Headless(d, name)
    ensures Headless(a + b + c + d, name)
  {
    HeadlessAppend(a, b, name);
    HeadlessAppend(a + b, c, name);
    HeadlessAppend(a + b + c, d, name);
  }

  lemma OpeningHeadless(d: Design, port: string, name: string)
    requires WellTexted(d, port) && AllWord(name) && |name| > 4
    ensures Headless(Opening(d, port), name)
  {
    HeaderHeadless(d.title, name);
    OneHeadless("", name);
    SizedVarsNamed(d, port);
    VarLinesHeadless(SizedVars(d, port), name);
    InitHeadless(d.init, name);
    FourHeadless([TitleLine(d.title), "EXTENDS Integers", "", "VARIABLES"], VarLines(SizedVars(d, port)), [""],
                 [INIT + " ==", INDENT + "/\\ " + d.init, ""], name);
  }

  lemma {:induction false} UpdatesPrintable(acts: seq<Act>)
    requires forall k | 0 <= k < |acts| :: AllPrintable(acts[k].updates)
    ensures AllPrintable(AllUpdates(acts))
  {
    if acts != [] {
      UpdatesPrintable(acts[1..]);
    }
  }

  lemma {:induction false} CombActsPrintable(acts: seq<Act>, d: Design)
    requires forall k | 0 <= k < |acts| :: AllPrintable(acts[k].updates)
    ensures forall k | 0 <= k < |CombActs(acts, d)| :: AllPrintable(CombActs(acts, d)[k].updates)
    decreases |acts|
  {
    if acts != [] {
      CombActsPrintable(acts[..|acts| - 1], d);
    }
  }

  lemma CombPrintable(d: Design, port: string)
    requires WellTexted(d, port)
    ensures AllPrintable(AllUpdates(CombActs(d.acts, d)))
  {
    CombActsPrintable(d.acts, d);
    UpdatesPrintable(CombActs(d.acts, d));
  }

  lemma {:induction false} ResetPrintable(acts: seq<Act>, d: Design)
    requires forall k | 0 <= k < |acts| :: AllPrintable(acts[k].updates)
    ensures ResetUpdates(acts, d).Some? ==> AllPrintable(ResetUpdates(acts, d).value)
    decreases |acts|
  {
    if acts != [] {
      ResetPrintable(acts[..|acts| - 1], d);
    }
  }

  lemma CombHeadless(acts: seq<Act>)
    requires AllPrintable(AllUpdates(acts))
    ensures Headless(CombSection(acts), PIPE)
  {
    PadsBlank();
    if acts != [] {
      var es := AllUpdates(acts);
      OtherHead(COMB, PIPE);
      ConjsHeadless(INDENT, es, PIPE);
      CalmHasNoHead("", PIPE);
      HeadlessAppend([COMB + " =="], Conjs(INDENT, es), PIPE);
      HeadlessAppend([COMB + " =="] + Conjs(INDENT, es), [""], PIPE);
    }
  }

  lemma PipeIndented(reset: Option<seq<Entry>>, next: seq<Entry>, port: string, activeLow: bool)
    ensures Indented(PipeLines(reset, next, port, activeLow) + [""])
  {
    PadsBlank();
    ConjsIndented(INDENT, next);
    ConjsIndented(DEEP, next);
    if reset.Some? {
      ConjsIndented(DEEP, reset.value);
    }
  }

  lemma SectionShape(pre: seq<Line>, a: seq<Line>, b: seq<Line>, c: seq<Line>, d: seq<Line>, post: seq<Line>)
    ensures pre + (a + b + c + d) + post == pre + (a + (b + ((c + d) + post)))
  {
    Regroup(a + b, c, d);
    Regroup(a, b, c + d);
    Regroup(pre, a + (b + (c + d)), post);
    Regroup(a, b + (c + d), post);
    Regroup(b, c + d, post);
  }

  lemma ConjStripped(pad: string, e: Entry)
    requires AllBlank(pad) && Printable(e)
    ensures Core(LStrip(Conj(pad, e))) == Shown(e)
  {
    CoreLStrip(Conj(pad, e));
    CoreConj(pad, e);
  }

  lemma ClkCore()
    ensures Core(LStrip(Conj(INDENT, CLK_UPDATE))) == Shown(CLK_UPDATE)
  {
    PadsBlank();
    ClkPrintable();
    ConjStripped(INDENT, CLK_UPDATE);
  }

  lemma ConjBegins(e: Entry)
    ensures LStrip(Conj(INDENT, e)) != ""
  {
    var first := Conj(INDENT, e);
    assert first[4] == '/';
    SkipIs(Blank, first, 0, 4);
  }

  /** A section found behind lines that open none of its name. */
  lemma SectionFound(pre: seq<Line>, name: string, head: Line, first: Line, c: seq<Line>, footer: Line)
    requires Headless(pre, name) && Boundary(footer) && AllWord(name) && head == name + " =="
    requires LStrip(first) != "" && Indented(c + [""])
    ensures Block(pre + ([head] + [first] + c + [""]) + [footer], name) == Some([LStrip(first)] + (c + [""]))
  {
    IndentedInside(c + [""]);
    BlockFound(pre, name, first, c + [""], [footer]);
    SectionShape(pre, [head], [first], c, [""], [footer]);
  }

  /** The pipeline section of a text, wherever it stands. */
  lemma PipeFound(pre: seq<Line>, reset: Option<seq<Entry>>, next: seq<Entry>, port: string, activeLow: bool, footer: Line)
    requires Headless(pre, PIPE) && Boundary(footer)
    ensures Block(pre + PipeSection(reset, next, port, activeLow) + [footer], PIPE) ==
      Some([LStrip(Conj(INDENT, CLK_UPDATE))] + (PipeLines(reset, next, port, activeLow) + [""]))
  {
    PipeIndented(reset, next, port, activeLow);
    ConjBegins(CLK_UPDATE);
    SectionFound(pre, PIPE, PIPE + " ==", Conj(INDENT, CLK_UPDATE), PipeLines(reset, next, port, activeLow), footer);
  }

  lemma PipeBlockCores(first: Line, reset: Option<seq<Entry>>, next: seq<Entry>, port: string, activeLow: bool)
    requires AllWord(port) && AllPrintable(next) && (reset.Some? ==> AllPrintable(reset.value))
    ensures Cores([first] + (PipeLines(reset, next, port, activeLow) + [""])) == [Core(first)] + PipeCores(reset, next, port, activeLow)
  {
    CoresOne(first);
    CoresAppend([first], PipeLines(reset, next, port, activeLow) + [""]);
    CoresPipe(reset, next, port, activeLow);
  }

  /** What the pipeline section is read as. */
  lemma PipeReads(reset: Option<seq<Entry>>, next: seq<Entry>, port: string, activeLow: bool)
    requires AllWord(port) && AllPrintable(next) && (reset.Some? ==> AllPrintable(reset.value))
    ensures var r := SplitReset([Shown(CLK_UPDATE)] + PipeCores(reset, next, port, activeLow), port, false);
      && Assigned(port, Joined(r.0, "")) == Kept(port, ResetList(reset))
      && Assigned(port, Joined(r.1, "")) == Kept(port, next)
  {
    SplitPipe(reset, next, port, activeLow);
    ClkPrintable();
    WholeListReadsBack(port, ResetList(reset));
    WholeListReadsBack(port, [CLK_UPDATE] + next);
    ClkDropped(port, next);
  }

  lemma WholeListReadsBack(port: string, es: seq<Entry>)
    requires AllPrintable(es)
    ensures Assigned(port, Joined(Showns(es), "")) == Kept(port, es)
  {
    ListReadsBack(port, es, []);
    assert Showns(es) + [] == Showns(es) && Kept(port, es) + [] == Kept(port, es);
  }

  lemma FooterBounds(title: string)
    ensures Boundary(Footer(title))
  {
    assert Footer(title)[0..4] == "====";
  }

  /** The reset list and the next-state list come back as printed, without what is not emitted. */
  lemma SequentialReadsBack(d: Design, port: string, activeLow: bool)
    requires WellTexted(d, port)
    ensures SeqRead(port, Text(d, port, activeLow)) == (Kept(port, ResetList(ResetUpdates(d.acts, d))), Kept(port, d.next))
  {
    var pre, comb := Opening(d, port), CombSection(CombActs(d.acts, d));
    OpeningHeadless(d, port, PIPE);
    CombPrintable(d, port);
    CombHeadless(CombActs(d.acts, d));
    HeadlessAppend(pre, comb, PIPE);
    FooterBounds(d.title);
    ResetPrintable(d.acts, d);
    PipeFound(pre + comb, ResetUpdates(d.acts, d), d.next, port, activeLow, Footer(d.title));
    ClkCore();
    PipeBlockCores(LStrip(Conj(INDENT, CLK_UPDATE)), ResetUpdates(d.acts, d), d.next, port, activeLow);
    PipeReads(ResetUpdates(d.acts, d), d.next, port, activeLow);
  }

  // ---------------------------------------------------------------------------
  // The combinational list comes back, unless its section is empty
  // ---------------------------------------------------------------------------

  lemma RuleHeadless(l: Line, name: string, q: nat)
    requires AllWord(name) && forall k | 0 <= k < |l| :: l[k] == '='
    ensures !HeadAt(l, name, q)
  {
    assert Word(name[0]) && !Word('=');
    if HeadAt(l, name, q) {
      HeadChars(l, name, q);
    }
  }

  lemma FooterHeadless(title: string, name: string)
    requires AllWord(name)
    ensures Headless([Footer(title)], name)
  {
    if Head(Footer(title), name, 0).Some? {
      var q: nat :| HeadAt(Footer(title), name, q);
      RuleHeadless(Footer(title), name, q);
    }
  }

  lemma PipeLinesHeadless(reset: Option<seq<Entry>>, next: seq<Entry>, port: string, activeLow: bool, name: string)
    requires AllWord(port) && AllPrintable(next) && (reset.Some? ==> AllPrintable(reset.value))
    ensures Headless(PipeLines(reset, next, port, activeLow), name)
  {
    PadsBlank();
    match reset
    case None => ConjsHeadless(INDENT, next, name);
    case Some(es) =>
      ResetLineCalm(port, activeLow);
      OneHeadless(ResetLine(port, activeLow), name);
      OneHeadless("       ELSE", name);
      ConjsHeadless(DEEP, es, name);
      ConjsHeadless(DEEP, next, name);
      FourHeadless([ResetLine(port, activeLow)], Conjs(DEEP, es), ["       ELSE"], Conjs(DEEP, next), name);
  }

  lemma ResetLineCalm(port: string, activeLow: bool)
    requires AllWord(port)
    ensures Calm(ResetLine(port, activeLow))
  {
    var a, b := INDENT + "/\\ IF ", " = " + (if activeLow then "0" else "1") + " THEN";
    WordCalm(port);
    NoEqAppend(a, port);
    CalmAppend(a + port, b);
    assert a + port + b == ResetLine(port, activeLow);
  }

  lemma PipeHeadless(reset: Option<seq<Entry>>, next: seq<Entry>, port: string, activeLow: bool)
    requires AllWord(port) && AllPrintable(next) && (reset.Some? ==> AllPrintable(reset.value))
    ensures Headless(PipeSection(reset, next, port, activeLow), COMB)
  {
    PadsBlank();
    var name := COMB;
    OtherHead(PIPE, name);
    ClkPrintable();
    ConjCalm(INDENT, CLK_UPDATE);
    OneHeadless(Conj(INDENT, CLK_UPDATE), name);
    PipeLinesHeadless(reset, next, port, activeLow, name);
    OneHeadless("", name);
    FourHeadless([PIPE + " =="], [Conj(INDENT, CLK_UPDATE)], PipeLines(reset, next, port, activeLow), [""], name);
  }

  /** Without a combinational section nothing is found. */
  lemma NoSectionNoBlock(ls: seq<Line>, name: string)
    requires Headless(ls, name)
    ensures Block(ls, name) == None
  {
    BlockBehind(ls, [], name);
    assert ls + [] == ls;
  }

  lemma CombAbsent(d: Design, port: string, activeLow: bool)
    requires WellTexted(d, port) && CombActs(d.acts, d) == []
    ensures CombRead(port, Text(d, port, activeLow)) == []
  {
    var name := COMB;
    OpeningHeadless(d, port, name);
    ResetPrintable(d.acts, d);
    PipeHeadless(ResetUpdates(d.acts, d), d.next, port, activeLow);
    FooterHeadless(d.title, name);
    assert Headless([], name);
    FourHeadless(Opening(d, port), [], PipeSection(ResetUpdates(d.acts, d), d.next, port, activeLow), [Footer(d.title)], name);
    NoSectionNoBlock(Text(d, port, activeLow), name);
  }

  /** A section found in front of another one. */
  lemma SectionInFront(pre: seq<Line>, name: string, head: Line, first: Line, c: seq<Line>, post: seq<Line>)
    requires Headless(pre, name) && post != [] && Boundary(post[0]) && AllWord(name) && head == name + " =="
    requires LStrip(first) != "" && Indented(c)
    ensures Block(pre + ([head] + ([first] + (c + post))), name) == Some([LStrip(first)] + c)
  {
    IndentedInside(c);
    BlockFound(pre, name, first, c, post);
  }

  lemma SectionNames()
    ensures AllWord(COMB) && AllWord(PIPE)
  {
  }

  lemma CombBlock(pre: seq<Line>, es: seq<Entry>, post: seq<Line>)
    requires Headless(pre, COMB) && es != [] && post != [] && Boundary(post[0])
    ensures Block(pre + ([COMB + " =="] + Conjs(INDENT, es) + [""]) + post, COMB) ==
      Some([LStrip(Conj(INDENT, es[0]))] + (Conjs(INDENT, es[1..]) + [""]))
  {
    PadsBlank();
    var first, c := Conj(INDENT, es[0]), Conjs(INDENT, es[1..]) + [""];
    ConjBegins(es[0]);
    ConjsIndented(INDENT, es[1..]);
    SectionInFront(pre, COMB, COMB + " ==", first, c, post);
    CombShape(pre, [COMB + " =="], [first], Conjs(INDENT, es[1..]), [""], post);
  }

  lemma CombShape(pre: seq<Line>, a: seq<Line>, b: seq<Line>, c: seq<Line>, d: seq<Line>, post: seq<Line>)
    ensures pre + (a + (b + c) + d) + post == pre + (a + (b + ((c + d) + post)))
  {
    Regroup(a, b, c);
    SectionShape(pre, a, b, c, d, post);
  }

  lemma CombBlockCores(es: seq<Entry>)
    requires es != [] && AllPrintable(es)
    ensures Cores([LStrip(Conj(INDENT, es[0]))] + (Conjs(INDENT, es[1..]) + [""])) == Showns(es) + [""]
  {
    PadsBlank();
    var first := LStrip(Conj(INDENT, es[0]));
    CoreLStrip(Conj(INDENT, es[0]));
    CoreConj(INDENT, es[0]);
    CoresOne(first);
    CoresOne("");
    CoreElse();
    CoresConjs(INDENT, es[1..]);
    CoresAppend(Conjs(INDENT, es[1..]), [""]);
    CoresAppend([first], Conjs(INDENT, es[1..]) + [""]);
    Regroup([Shown(es[0])], Showns(es[1..]), [""]);
  }

  lemma CombBlockReads(port: string, es: seq<Entry>)
    requires es != [] && AllPrintable(es)
    ensures LinesAssign(port, [LStrip(Conj(INDENT, es[0]))] + (Conjs(INDENT, es[1..]) + [""])) == Kept(port, es)
  {
    CombBlockCores(es);
    ListReadsBack(port, es, [""]);
    assert Joined([""], "") == [];
    assert Kept(port, es) + [] == Kept(port, es);
  }

  lemma PipeStarts(reset: Option<seq<Entry>>, next: seq<Entry>, port: string, activeLow: bool)
    ensures var p := PipeSection(reset, next, port, activeLow); p != [] && p[0] == PIPE + " ==" && Boundary(p[0])
  {
  }

  lemma CombPresentIn(pre: seq<Line>, es: seq<Entry>, pipe: seq<Line>, footer: Line, port: string)
    requires Headless(pre, COMB) && es != [] && AllPrintable(es) && pipe != [] && Boundary(pipe[0])
    ensures CombRead(port, pre + ([COMB + " =="] + Conjs(INDENT, es) + [""]) + pipe + [footer]) == Kept(port, es)
  {
    CombBlock(pre, es, pipe + [footer]);
    Regroup(pre + ([COMB + " =="] + Conjs(INDENT, es) + [""]), pipe, [footer]);
    CombBlockReads(port, es);
  }

  lemma CombPresent(d: Design, port: string, activeLow: bool)
    requires WellTexted(d, port) && AllUpdates(CombActs(d.acts, d)) != []
    ensures CombRead(port, Text(d, port, activeLow)) == Kept(port, AllUpdates(CombActs(d.acts, d)))
  {
    var es := AllUpdates(CombActs(d.acts, d));
    OpeningHeadless(d, port, COMB);
    CombPrintable(d, port);
    PipeStarts(ResetUpdates(d.acts, d), d.next, port, activeLow);
    CombPresentIn(Opening(d, port), es, PipeSection(ResetUpdates(d.acts, d), d.next, port, activeLow), Footer(d.title), port);
  }

  /** The search for an empty section goes on into the next one. */
  lemma BodySwallows(head: Line, rest: seq<Line>, footer: Line)
    requires LStrip(head) != "" && Indented(rest) && Boundary(footer)
    ensures Body(Boundary, "", [""] + ([head] + rest + [footer])) == [LStrip(head)] + rest
  {
    assert ([""] + ([head] + rest + [footer]))[1..] == [head] + (rest + [footer]);
    assert LStrip("") == "";
    BodyFound(Boundary, head, rest + [footer]);
    IndentedInside(rest);
    UptoAll(Boundary, rest, [footer]);
  }

  lemma EmptySectionSwallows(pre: seq<Line>, name: string, own: Line, head: Line, rest: seq<Line>, footer: Line)
    requires Headless(pre, name) && AllWord(name) && own == name + " =="
    requires LStrip(head) != "" && Indented(rest) && Boundary(footer)
    ensures Block(pre + ([own] + [""]) + ([head] + rest) + [footer], name) == Some([LStrip(head)] + rest)
  {
    Regroup([own], [""], [head] + rest + [footer]);
    Regroup(pre, [own] + [""], [head] + rest);
    Regroup(pre, [own] + [""] + ([head] + rest), [footer]);
    Regroup([own] + [""], [head] + rest, [footer]);
    BlockBehind(pre, [own] + ([""] + ([head] + rest + [footer])), name);
    OwnHead(name);
    BlockHere(own, [""] + ([head] + rest + [footer]), name, |name| + 3);
    BodySwallows(head, rest, footer);
  }

  lemma HeaderCore(name: string)
    requires AllWord(name)
    ensures var h := name + " =="; LStrip(h) == h && h != "" && Core(h) == h && !Opens(h)
  {
    var h := name + " ==";
    WordCalm(name);
    UnmarkedAppend(name, " ==");
    UncommentUnmarked(h);
    KeyChars(name);
    StripTrim(h);
    SkipIs(Blank, h, 0, 0);
    assert h[..2][0] == h[0];
  }

  /** A line that continues nothing is dropped. */
  lemma JoinedDrops(x: string, rest: seq<string>)
    requires !Opens(x)
    ensures Joined([x] + rest, "") == Joined(rest, "")
  {
    assert ([x] + rest)[1..] == rest;
  }

  /** The right-hand side in front of the reset branch's end takes its keyword up. */
  function Blurred(es: seq<Entry>): seq<Entry> {
    if es == [] then [] else es[..|es| - 1] + [(es[|es| - 1].0, Continued(es[|es| - 1].1))]
  }

  lemma ElseContinues(last: string, tail: seq<string>)
    requires Opens(last) && Settled(tail)
    ensures Joined([last] + (["ELSE"] + tail), "") == [last + " ELSE"] + Joined(tail, "")
  {
    var rest := ["ELSE"] + tail;
    assert ([last] + rest)[1..] == rest && rest[1..] == tail;
    assert !Opens("ELSE") by {
      assert "ELSE"[0..2][0] == 'E';
    }
    assert last + " " + "ELSE" == last + " ELSE";
    assert Joined(rest, last) == Joined(tail, last + " ELSE");
    JoinedFlush(tail, last + " ELSE");
  }

  lemma JoinedContinues(cs: seq<string>, last: string, tail: seq<string>)
    requires AllOpen(cs) && Opens(last) && Settled(tail)
    ensures Joined(cs + ([last] + (["ELSE"] + tail)), "") == cs + ([last + " ELSE"] + Joined(tail, ""))
  {
    JoinedOpen(cs, [last] + (["ELSE"] + tail));
    ElseContinues(last, tail);
  }

  lemma AssignedNone(port: string, x: string, rest: seq<string>)
    requires ReadConjunct(x) == None
    ensures Assigned(port, [x] + rest) == Assigned(port, rest)
  {
    assert ([x] + rest)[1..] == rest;
  }

  lemma ResetCoreUnread(port: string, activeLow: bool, z: string)
    ensures ReadConjunct(ResetCore(port, activeLow) + z) == None
  {
    var c := ResetCore(port, activeLow) + z;
    assert c[0] == '/' && c[1] == '\\' && c[2] == ' ' && c[3] == 'I' && c[4] == 'F' && c[5] == ' ';
    IfUnread(c);
  }

  lemma ClkAssigned(port: string, rest: seq<string>)
    ensures Assigned(port, [Shown(CLK_UPDATE)] + rest) == Assigned(port, rest)
  {
    ClkPrintable();
    ReadShown(CLK_UPDATE);
    ClkDropped(port, []);
    AssignedFirst(port, Shown(CLK_UPDATE), rest, CLK_UPDATE);
  }

  lemma KeptFirst(port: string, e: Entry, es: seq<Entry>)
    ensures Kept(port, [e] + es) == (if Emits(port, e.0) then [e] else []) + Kept(port, es)
  {
    assert ([e] + es)[1..] == es;
  }

  lemma {:induction false} KeptAppend(port: string, a: seq<Entry>, b: seq<Entry>)
    ensures Kept(port, a + b) == Kept(port, a) + Kept(port, b)
    decreases |a|
  {
    if a == [] {
      assert a + b == b;
    } else {
      assert a + b == [a[0]] + (a[1..] + b);
      KeptFirst(port, a[0], a[1..] + b);
      KeptAppend(port, a[1..], b);
      Regroup(if Emits(port, a[0].0) then [a[0]] else [], Kept(port, a[1..]), Kept(port, b));
    }
  }

  /** The reset branch and what follows it, read as if it were one list. */
  lemma BranchReads(port: string, activeLow: bool, es: seq<Entry>, tail: seq<string>)
    requires AllPrintable(es) && es != [] && Settled(tail) && AllWord(port)
    ensures Assigned(port, Joined([Shown(CLK_UPDATE)] + ([ResetCore(port, activeLow)] + (Showns(es) + (["ELSE"] + tail))), "")) ==
      Kept(port, Blurred(es)) + Assigned(port, Joined(tail, ""))
  {
    var n, rc := |es| - 1, ResetCore(port, activeLow);
    ShownsSplit(es);
    BranchShape(Shown(CLK_UPDATE), rc, Showns(es[..n]), Shown(es[n]), ["ELSE"] + tail);
    BranchOpen(port, activeLow, es[..n]);
    ShownStays(es[n], port, false);
    JoinedContinues([Shown(CLK_UPDATE)] + ([rc] + Showns(es[..n])), Shown(es[n]), tail);
    BranchAssigned(port, activeLow, es, Joined(tail, ""));
  }

  lemma BranchShape(c: string, rc: string, init: seq<string>, last: string, more: seq<string>)
    ensures [c] + ([rc] + ((init + [last]) + more)) == ([c] + ([rc] + init)) + ([last] + more)
  {
    Regroup(init, [last], more);
    Regroup([rc], init, [last] + more);
    Regroup([c], [rc] + init, [last] + more);
  }

  lemma {:induction false} ShownsAppend(a: seq<Entry>, b: seq<Entry>)
    ensures Showns(a + b) == Showns(a) + Showns(b)
    decreases |a|
  {
    if a == [] {
      assert a + b == b;
    } else {
      assert (a + b)[1..] == a[1..] + b;
      ShownsAppend(a[1..], b);
      Regroup([Shown(a[0])], Showns(a[1..]), Showns(b));
    }
  }

  lemma ShownsSplit(es: seq<Entry>)
    requires es != []
    ensures Showns(es) == Showns(es[..|es| - 1]) + [Shown(es[|es| - 1])]
  {
    var n := |es| - 1;
    ShownsAppend(es[..n], [es[n]]);
    assert es[..n] + [es[n]] == es;
    assert Showns([es[n]]) == [Shown(es[n])];
  }

  lemma OpenInFront(c: string, cs: seq<string>)
    requires Opens(c) && AllOpen(cs)
    ensures AllOpen([c] + cs)
  {
  }

  lemma BranchOpen(port: string, activeLow: bool, es: seq<Entry>)
    requires AllPrintable(es) && AllWord(port)
    ensures AllOpen([Shown(CLK_UPDATE)] + ([ResetCore(port, activeLow)] + Showns(es)))
  {
    ClkPrintable();
    ShownStays(CLK_UPDATE, port, false);
    ResetCoreOpens(port, activeLow);
    ShownsOpen(es);
    OpenInFront(ResetCore(port, activeLow), Showns(es));
    OpenInFront(Shown(CLK_UPDATE), [ResetCore(port, activeLow)] + Showns(es));
  }

  lemma BranchAssigned(port: string, activeLow: bool, es: seq<Entry>, tail: seq<string>)
    requires AllPrintable(es) && es != []
    ensures var n := |es| - 1;
      Assigned(port, ([Shown(CLK_UPDATE)] + ([ResetCore(port, activeLow)] + Showns(es[..n]))) + ([Shown(es[n]) + " ELSE"] + tail)) ==
      Kept(port, Blurred(es)) + Assigned(port, tail)
  {
    var n, rc := |es| - 1, ResetCore(port, activeLow);
    var more := [Shown(es[n]) + " ELSE"] + tail;
    var last := (es[n].0, Continued(es[n].1));
    Regroup([Shown(CLK_UPDATE)], [rc] + Showns(es[..n]), more);
    Regroup([rc], Showns(es[..n]), more);
    ClkAssigned(port, [rc] + (Showns(es[..n]) + more));
    ResetCoreUnread(port, activeLow, "");
    assert rc + "" == rc;
    AssignedNone(port, rc, Showns(es[..n]) + more);
    ShownsOpen(es[..n]);
    AssignedReads(port, Showns(es[..n]), es[..n], more);
    ReadContinued(es[n]);
    AssignedFirst(port, Shown(es[n]) + " ELSE", tail, last);
    KeptAppend(port, es[..n], [last]);
    assert Kept(port, [last]) == if Emits(port, last.0) then [last] else [];
    Regroup(Kept(port, es[..n]), Kept(port, [last]), Assigned(port, tail));
  }

  /** An empty reset branch only loses its opening. */
  lemma EmptyBranchReads(port: string, activeLow: bool, tail: seq<string>)
    requires Settled(tail) && AllWord(port)
    ensures Assigned(port, Joined([Shown(CLK_UPDATE)] + ([ResetCore(port, activeLow)] + (["ELSE"] + tail)), "")) ==
      Assigned(port, Joined(tail, ""))
  {
    var rc := ResetCore(port, activeLow);
    ClkPrintable();
    ShownStays(CLK_UPDATE, port, false);
    ResetCoreOpens(port, activeLow);
    JoinedContinues([Shown(CLK_UPDATE)], rc, tail);
    ClkAssigned(port, [rc + " ELSE"] + Joined(tail, ""));
    ResetCoreUnread(port, activeLow, " ELSE");
    AssignedNone(port, rc + " ELSE", Joined(tail, ""));
  }

  lemma PipeSwallowed(reset: Option<seq<Entry>>, next: seq<Entry>, port: string, activeLow: bool)
    requires AllWord(port) && AllPrintable(next) && (reset.Some? ==> AllPrintable(reset.value))
    ensures Assigned(port, Joined([Shown(CLK_UPDATE)] + PipeCores(reset, next, port, activeLow), "")) ==
      Kept(port, Blurred(ResetList(reset))) + Kept(port, next)
  {
    var tail := Showns(next) + [""];
    ShownsOpen(next);
    JoinedOpen(Showns(next), [""]);
    ListReadsBack(port, next, [""]);
    assert Joined([""], "") == [] && Kept(port, next) + [] == Kept(port, next);
    match reset
    case None =>
      ClkPrintable();
      ShownStays(CLK_UPDATE, port, false);
      JoinedFirst(Shown(CLK_UPDATE), tail);
      ClkAssigned(port, Joined(tail, ""));
    case Some(es) =>
      if es == [] {
        assert Showns(es) + (["ELSE"] + tail) == ["ELSE"] + tail;
        EmptyBranchReads(port, activeLow, tail);
      } else {
        BranchReads(port, activeLow, es, tail);
      }
  }

  lemma LinesAssignPipe(port: string, head: Line, reset: Option<seq<Entry>>, next: seq<Entry>, activeLow: bool)
    requires AllWord(port) && AllPrintable(next) && (reset.Some? ==> AllPrintable(reset.value)) && !Opens(Core(head))
    ensures LinesAssign(port, [head] + ([Conj(INDENT, CLK_UPDATE)] + (PipeLines(reset, next, port, activeLow) + [""]))) ==
      Kept(port, Blurred(ResetList(reset))) + Kept(port, next)
  {
    PadsBlank();
    var rest := [Conj(INDENT, CLK_UPDATE)] + (PipeLines(reset, next, port, activeLow) + [""]);
    ClkPrintable();
    CoreConj(INDENT, CLK_UPDATE);
    PipeBlockCores(Conj(INDENT, CLK_UPDATE), reset, next, port, activeLow);
    CoresOne(head);
    CoresAppend([head], rest);
    JoinedDrops(Core(head), Cores(rest));
    PipeSwallowed(reset, next, port, activeLow);
  }

  lemma PipeShape(reset: Option<seq<Entry>>, next: seq<Entry>, port: string, activeLow: bool)
    ensures PipeSection(reset, next, port, activeLow) ==
      [PIPE + " =="] + ([Conj(INDENT, CLK_UPDATE)] + (PipeLines(reset, next, port, activeLow) + [""]))
  {
    Regroup([PIPE + " =="], [Conj(INDENT, CLK_UPDATE)], PipeLines(reset, next, port, activeLow));
    Regroup([PIPE + " =="], [Conj(INDENT, CLK_UPDATE)] + PipeLines(reset, next, port, activeLow), [""]);
    Regroup([Conj(INDENT, CLK_UPDATE)], PipeLines(reset, next, port, activeLow), [""]);
  }

  lemma PipeBodyIndented(reset: Option<seq<Entry>>, next: seq<Entry>, port: string, activeLow: bool)
    ensures Indented([Conj(INDENT, CLK_UPDATE)] + (PipeLines(reset, next, port, activeLow) + [""]))
  {
    PipeIndented(reset, next, port, activeLow);
    assert Conj(INDENT, CLK_UPDATE)[0] == ' ';
  }

  /** The pipeline section's lines, as a block of the search before it. */
  function Swallowed(reset: Option<seq<Entry>>, next: seq<Entry>, port: string, activeLow: bool): seq<Line> {
    [PIPE + " =="] + ([Conj(INDENT, CLK_UPDATE)] + (PipeLines(reset, next, port, activeLow) + [""]))
  }

  lemma EmptyBlock(pre: seq<Line>, name: string, own: Line, head: Line, rest: seq<Line>, footer: Line)
    requires AllWord(name) && own == name + " ==" && LStrip(head) == head && head != ""
    requires Headless(pre, name) && Indented(rest) && Boundary(footer)
    ensures Block(pre + ([own] + [""]) + ([head] + rest) + [footer], name) == Some([head] + rest)
  {
    EmptySectionSwallows(pre, name, own, head, rest, footer);
  }

  lemma EmptySectionText(d: Design, port: string, activeLow: bool)
    requires CombActs(d.acts, d) != [] && AllUpdates(CombActs(d.acts, d)) == []
    ensures Text(d, port, activeLow) ==
      Opening(d, port) + ([COMB + " =="] + [""]) + Swallowed(ResetUpdates(d.acts, d), d.next, port, activeLow) + [Footer(d.title)]
  {
    assert CombSection(CombActs(d.acts, d)) == [COMB + " =="] + [""];
    PipeShape(ResetUpdates(d.acts, d), d.next, port, activeLow);
  }

  lemma CombReadOf(port: string, ls: seq<Line>, b: seq<Line>)
    requires Block(ls, COMB) == Some(b)
    ensures CombRead(port, ls) == LinesAssign(port, b)
  {
  }

  lemma SwallowedReads(reset: Option<seq<Entry>>, next: seq<Entry>, port: string, activeLow: bool)
    requires AllWord(port) && AllPrintable(next) && (reset.Some? ==> AllPrintable(reset.value))
    ensures LinesAssign(port, Swallowed(reset, next, port, activeLow)) == Kept(port, Blurred(ResetList(reset))) + Kept(port, next)
  {
    HeaderCore(PIPE);
    LinesAssignPipe(port, PIPE + " ==", reset, next, activeLow);
  }

  /**
    A combinational action without updates opens an empty section; the compiler's search then runs on
    through the pipeline section and reads the registers' resets and next states as assignments.
    */
  lemma EmptySectionReadsPipeline(d: Design, port: string, activeLow: bool)
    requires WellTexted(d, port) && CombActs(d.acts, d) != [] && AllUpdates(CombActs(d.acts, d)) == []
    ensures CombRead(port, Text(d, port, activeLow)) ==
      Kept(port, Blurred(ResetList(ResetUpdates(d.acts, d)))) + Kept(port, d.next)
  {
    var reset := ResetUpdates(d.acts, d);
    OpeningHeadless(d, port, COMB);
    FooterBounds(d.title);
    ResetPrintable(d.acts, d);
    EmptySectionText(d, port, activeLow);
    PipeBodyIndented(reset, d.next, port, activeLow);
    SectionNames();
    HeaderCore(PIPE);
    EmptyBlock(Opening(d, port), COMB, COMB + " ==", PIPE + " ==", [Conj(INDENT, CLK_UPDATE)] + (PipeLines(reset, d.next, port, activeLow) + [""]), Footer(d.title));
    CombReadOf(port, Text(d, port, activeLow), Swallowed(reset, d.next, port, activeLow));
    SwallowedReads(reset, d.next, port, activeLow);
  }

  lemma BlurredKept(port: string, es: seq<Entry>)
    ensures Kept(port, Blurred(es)) == [] <==> Kept(port, es) == []
  {
    if es != [] {
      var n := |es| - 1;
      KeptAppend(port, es[..n], [Blurred(es)[n]]);
      KeptAppend(port, es[..n], [es[n]]);
      assert es == es[..n] + [es[n]];
    }
  }

  /**
    The combinational list comes back as printed exactly when its section is absent, not empty, or in
    front of a pipeline that drives nothing.
    */
  lemma CombinationalReadsBackIff(d: Design, port: string, activeLow: bool)
    requires WellTexted(d, port)
    ensures var es, reset := AllUpdates(CombActs(d.acts, d)), ResetList(ResetUpdates(d.acts, d));
      CombRead(port, Text(d, port, activeLow)) == Kept(port, es) <==>
      CombActs(d.acts, d) == [] || es != [] || Kept(port, reset) + Kept(port, d.next) == []
  {
    var es, reset := AllUpdates(CombActs(d.acts, d)), ResetList(ResetUpdates(d.acts, d));
    if CombActs(d.acts, d) == [] {
      CombAbsent(d, port, activeLow);
    } else if es != [] {
      CombPresent(d, port, activeLow);
    } else {
      EmptySectionReadsPipeline(d, port, activeLow);
      BlurredKept(port, reset);
    }
  }
}
