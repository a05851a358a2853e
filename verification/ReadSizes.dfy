/**
  The declarations Compiler 2 reads back from the VARIABLES section the bridge printed.
  */
module ReadSizes {
  import opened Expressions
  import opened Sections
  import opened Printing
  import opened ReadBack

  // ---------------------------------------------------------------------------
  // One declaration
  // ---------------------------------------------------------------------------

  predicate AllDigit(s: string) {
    s != "" && forall k | 0 <= k < |s| :: Digit(s[k])
  }

  lemma SkipDigits(l: string, j: nat, k: nat, num: string)
    requires j <= k <= |l| && l[j..k] == num && AllDigit(num) && (k < |l| ==> !Digit(l[k]))
    ensures Skip(Digit, l, j) == k && j < k && Digit(l[j])
  {
    forall i | j <= i < k
      ensures Digit(l[i])
    {
      assert l[i] == num[i - j];
    }
    SkipIs(Digit, l, j, k);
  }

  lemma SkipOne(l: string, i: nat)
    requires i + 1 < |l| && Blank(l[i]) && !Blank(l[i + 1])
    ensures Skip(Blank, l, i) == i + 1
  {
    SkipIs(Blank, l, i, i + 1);
  }

  lemma NoteIs(l: string, key: string, p: nat, j: nat, k: nat, num: string)
    requires At(l, p, key) && Skip(Blank, l, p + |key|) == j && Skip(Digit, l, j) == k && j < k
    requires l[j..k] == num && AllDigit(num)
    ensures Note(l, key, p) == Some(Number(num))
  {
  }

  /** `key`, one blank and a numeral from `j` to `k`. */
  lemma NoteRead(l: string, key: string, p: nat, j: nat, k: nat, num: string)
    requires At(l, p, key) && p + |key| + 1 == j <= k <= |l| && l[j - 1] == ' ' && l[j..k] == num
    requires AllDigit(num) && (k < |l| ==> !Digit(l[k]))
    ensures Note(l, key, p) == Some(Number(num))
  {
    SkipDigits(l, j, k, num);
    SkipOne(l, j - 1);
    NoteIs(l, key, p, j, k, num);
  }

  lemma {:induction false} WidthFirst(l: Line, p: nat, q: nat)
    requires p <= q < |l| && (forall k | p <= k < q :: WidthAt(l, k) == None) && WidthAt(l, q).Some?
    ensures WidthNote(l, p) == WidthAt(l, q)
    decreases q - p
  {
    if p < q {
      WidthFirst(l, p + 1, q);
    }
  }

  lemma {:induction false} DepthFirst(l: Line, p: nat, q: nat)
    requires p <= q < |l| && (forall k | p <= k < q :: DepthAt(l, k) == None) && DepthAt(l, q).Some?
    ensures DepthNote(l, p) == DepthAt(l, q)
    decreases q - p
  {
    if p < q {
      DepthFirst(l, p + 1, q);
    }
  }

  lemma {:induction false} DepthNone(l: Line, p: nat)
    requires p <= |l| && forall k | p <= k < |l| :: DepthAt(l, k) == None
    ensures DepthNote(l, p) == None
    decreases |l| - p
  {
    if p < |l| {
      DepthNone(l, p + 1);
    }
  }

  /** A line made of a declaration and its note. */
  function Noted(a: string, num: string, tail: string): Line {
    a + "\\* width: " + num + tail
  }

  lemma NotedShape(a: string, num: string, tail: string)
    requires num != ""
    ensures var l, q := Noted(a, num, tail), |a|;
      && |l| == q + 10 + |num| + |tail| && l[..q] == a && l[q] == '\\' && l[q + 1] == '*' && l[q + 2] == ' '
      && At(l, q + 3, "width:") && l[q + 9] == ' ' && l[q + 10..q + 10 + |num|] == num && l[q + 10 + |num|..] == tail
      && l[q + 3] == 'w' && l[q + 8] == ':' && (forall k | q <= k < q + 8 :: l[k] != ':')
  {
  }

  lemma WidthHere(a: string, n: nat, tail: string)
    requires tail != "" ==> tail[0] == ' '
    ensures WidthAt(Noted(a, Numeral(n), tail), |a|) == Some(n)
  {
    var num := Numeral(n);
    var l, q := Noted(a, num, tail), |a|;
    NotedShape(a, num, tail);
    SkipIs(Blank, l, q + 2, q + 3);
    assert tail != "" ==> l[q + 10 + |num|] == tail[0];
    NoteRead(l, "width:", q + 3, q + 10, q + 10 + |num|, num);
    NumberOfNumeral(n);
  }

  lemma WidthRead(a: string, n: nat, tail: string)
    requires (forall k | 0 <= k < |a| :: a[k] != '\\') && (tail != "" ==> tail[0] == ' ')
    ensures WidthNote(Noted(a, Numeral(n), tail), 0) == Some(n)
    ensures Uncomment(Noted(a, Numeral(n), tail)) == a
  {
    var l, q := Noted(a, Numeral(n), tail), |a|;
    WidthHere(a, n, tail);
    NotedShape(a, Numeral(n), tail);
    forall k | 0 <= k < q
      ensures !MarkAt(l, k)
    {
      assert l[k] == a[k];
    }
    WidthFirst(l, 0, q);
    MarkIs(l, q);
  }

  lemma ColonRead(l: Line, p: nat)
    requires At(l, p, "depth:")
    ensures l[p] == 'd' && l[p + 5] == ':'
  {
    assert l[p..p + 6][0] == 'd' && l[p..p + 6][5] == ':';
  }

  /** The only colons of a noted line are those of its notes. */
  lemma DepthOnlyAt(a: string, num: string, tail: string, p: nat)
    requires (forall k | 0 <= k < |a| :: a[k] != ':') && AllDigit(num)
    requires forall k | 0 <= k < |tail| :: tail[k] == ':' ==> k == 6
    ensures At(Noted(a, num, tail), p, "depth:") ==> p == |a| + 10 + |num| + 1 && tail != ""
  {
    var l, q := Noted(a, num, tail), |a|;
    if At(l, p, "depth:") {
      ColonRead(l, p);
      NotedShape(a, num, tail);
      ColonsOf(a, num, tail, p + 5);
    }
  }

  lemma ColonsOf(a: string, num: string, tail: string, i: nat)
    requires (forall k | 0 <= k < |a| :: a[k] != ':') && AllDigit(num)
    requires (forall k | 0 <= k < |tail| :: tail[k] == ':' ==> k == 6) && i < |Noted(a, num, tail)|
    ensures var l, q := Noted(a, num, tail), |a|;
      l[i] == ':' ==> i == q + 8 || (i == q + 16 + |num| && tail != "")
  {
    var l, q := Noted(a, num, tail), |a|;
    NotedShape(a, num, tail);
    if i < q {
      assert l[i] == a[i];
    } else if q + 10 <= i < q + 10 + |num| {
      assert l[i] == num[i - q - 10];
    } else if q + 10 + |num| <= i {
      assert l[i] == tail[i - (q + 10 + |num|)];
    }
  }

  lemma DepthHere(a: string, num: string, depth: nat)
    requires num != "" && depth > 0
    ensures DepthAt(Noted(a, num, DepthText(depth)), |a| + 11 + |num|) == Some(depth)
  {
    var tail, d := DepthText(depth), Numeral(depth);
    var l, q := Noted(a, num, tail), |a| + 11 + |num|;
    DepthTextShape(depth);
    NotedShape(a, num, tail);
    assert l[q - 1..] == tail;
    assert l[q..q + 6] == tail[1..7] && At(l, q, "depth:");
    assert l[q + 6] == tail[7] && l[q - 1] == tail[0] && l[q + 7..q + 7 + |d|] == tail[8..];
    NoteRead(l, "depth:", q, q + 7, q + 7 + |d|, d);
    NumberOfNumeral(depth);
  }

  lemma DepthElsewhere(a: string, num: string, depth: nat, p: nat)
    requires (forall k | 0 <= k < |a| :: a[k] != ':') && AllDigit(num)
    requires p != |a| + 11 + |num| || depth == 0
    ensures DepthAt(Noted(a, num, DepthText(depth)), p) == None
  {
    DepthTextShape(depth);
    DepthOnlyAt(a, num, DepthText(depth), p);
  }

  lemma DepthRead(a: string, num: string, depth: nat)
    requires (forall k | 0 <= k < |a| :: a[k] != ':') && AllDigit(num)
    ensures DepthNote(Noted(a, num, DepthText(depth)), 0) == if depth == 0 then None else Some(depth)
  {
    var l, q := Noted(a, num, DepthText(depth)), |a| + 11 + |num|;
    forall p | 0 <= p < |l| && (p != q || depth == 0)
      ensures DepthAt(l, p) == None
    {
      DepthElsewhere(a, num, depth, p);
    }
    if depth == 0 {
      DepthNone(l, 0);
    } else {
      DepthHere(a, num, depth);
      DepthFirst(l, 0, q);
    }
  }

  lemma DepthTextShape(depth: nat)
    ensures var t := DepthText(depth); (forall k | 0 <= k < |t| :: t[k] == ':' ==> k == 6) && (depth == 0 <==> t == "")
    ensures depth > 0 ==> var t := DepthText(depth);
      |t| == 8 + |Numeral(depth)| && t[0] == ' ' && t[1..7] == "depth:" && t[7] == ' ' && t[8..] == Numeral(depth)
  {
  }

  /** A declaration in front of its note. */
  function Declaring(pad: string, name: string, last: bool): string {
    pad + name + if last then "  " else ",  "
  }

  lemma VarLineNoted(pad: string, v: Decl, last: bool)
    ensures VarLine(pad, v, last) == Noted(Declaring(pad, v.name, last), Numeral(v.width), DepthText(v.depth))
  {
  }

  lemma DeclaringShape(pad: string, name: string, last: bool)
    requires AllBlank(pad) && AllWord(name)
    ensures var a := Declaring(pad, name, last);
      && (forall k | 0 <= k < |a| :: a[k] != '\\' && a[k] != ':')
      && |pad| + |name| + 2 <= |a| && a[|pad|..|pad| + |name|] == name
      && (forall k | 0 <= k < |pad| :: Blank(a[k])) && (forall k | |pad| <= k < |pad| + |name| :: Word(a[k]))
      && (forall k | |pad| + |name| <= k < |a| :: Separator(a[k]))
  {
    var a := Declaring(pad, name, last);
    forall k | 0 <= k < |a|
      ensures k < |pad| ==> Blank(a[k])
      ensures |pad| <= k < |pad| + |name| ==> Word(a[k])
      ensures |pad| + |name| <= k ==> Separator(a[k])
    {
      if |pad| <= k < |pad| + |name| {
        assert a[k] == name[k - |pad|];
      }
    }
  }

  lemma FirstWordRead(pad: string, name: string, last: bool)
    requires AllBlank(pad) && AllWord(name)
    ensures FirstWord(Declaring(pad, name, last)) == Some(name)
  {
    var a := Declaring(pad, name, last);
    DeclaringShape(pad, name, last);
    SkipIs(c => !Word(c), a, 0, |pad|);
    SkipIs(Word, a, |pad|, |pad| + |name|);
  }

  lemma WordsRead(pad: string, name: string, last: bool)
    requires AllBlank(pad) && AllWord(name)
    ensures Words(Declaring(pad, name, last), 0) == [name]
  {
    var a, i, j := Declaring(pad, name, last), |pad|, |pad| + |name|;
    DeclaringShape(pad, name, last);
    SkipIs(Separator, a, 0, i);
    SkipIs(c => !Separator(c), a, i, j);
    SkipIs(Separator, a, j, |a|);
    assert Words(a, j) == [];
  }

  /** What one declaration adds to the sizes. */
  function Noting(v: Decl, z: Sizes): Sizes {
    Sizes(z.widths[v.name := v.width], if v.depth == 0 then z.depths else z.depths[v.name := v.depth])
  }

  lemma DeclReadsBack(pad: string, v: Decl, last: bool, z: Sizes)
    requires AllBlank(pad) && AllWord(v.name)
    ensures Sized(VarLine(pad, v, last), z) == Noting(v, z)
    ensures Words(Uncomment(VarLine(pad, v, last)), 0) == [v.name]
  {
    var a := Declaring(pad, v.name, last);
    VarLineNoted(pad, v, last);
    DeclaringShape(pad, v.name, last);
    DepthTextShape(v.depth);
    WidthRead(a, v.width, DepthText(v.depth));
    DepthRead(a, Numeral(v.width), v.depth);
    FirstWordRead(pad, v.name, last);
    WordsRead(pad, v.name, last);
  }

  // ---------------------------------------------------------------------------
  // All declarations
  // ---------------------------------------------------------------------------

  function NotingAll(vs: seq<Decl>, z: Sizes): Sizes {
    if vs == [] then z else NotingAll(vs[1..], Noting(vs[0], z))
  }

  function NamesOf(vs: seq<Decl>): (r: seq<string>)
    ensures |r| == |vs| && forall k | 0 <= k < |vs| :: r[k] == vs[k].name
  {
    if vs == [] then [] else [vs[0].name] + NamesOf(vs[1..])
  }

  lemma BlankLineSays(z: Sizes)
    ensures AllSized([""], z) == z && AllWords([""]) == []
  {
    assert WidthNote("", 0) == None;
    assert Words(Uncomment(""), 0) == [];
    assert [""][1..] == [];
  }

  lemma SizedFirst(l: Line, rest: seq<Line>, z: Sizes)
    ensures AllSized([l] + rest, z) == AllSized(rest, Sized(l, z))
    ensures AllWords([l] + rest) == Words(Uncomment(l), 0) + AllWords(rest)
  {
    assert ([l] + rest)[1..] == rest;
  }

  lemma {:induction false} DeclsReadBack(vs: seq<Decl>, z: Sizes)
    requires AllNamed(vs)
    ensures AllSized(VarLines(vs) + [""], z) == NotingAll(vs, z) && AllWords(VarLines(vs) + [""]) == NamesOf(vs)
    decreases |vs|
  {
    PadsBlank();
    if vs == [] {
      BlankLineSays(z);
      assert VarLines(vs) + [""] == [""];
    } else {
      var l, rest := VarLine(INDENT, vs[0], |vs| == 1), VarLines(vs[1..]) + [""];
      assert VarLines(vs) + [""] == [l] + rest;
      DeclReadsBack(INDENT, vs[0], |vs| == 1, z);
      SizedFirst(l, rest, z);
      DeclsReadBack(vs[1..], Noting(vs[0], z));
    }
  }

  /** The section's first line has lost its indentation. */
  lemma SectionReadsBack(vs: seq<Decl>, z: Sizes)
    requires AllNamed(vs) && vs != []
    ensures var ls := [VarLine("", vs[0], |vs| == 1)] + (VarLines(vs[1..]) + [""]);
      AllSized(ls, z) == NotingAll(vs, z) && AllWords(ls) == NamesOf(vs)
  {
    var l, rest := VarLine("", vs[0], |vs| == 1), VarLines(vs[1..]) + [""];
    DeclReadsBack("", vs[0], |vs| == 1, z);
    SizedFirst(l, rest, z);
    DeclsReadBack(vs[1..], Noting(vs[0], z));
  }

  /** The last declaration of a name counts; with distinct names each counts. */
  lemma {:induction false} NotingKeeps(vs: seq<Decl>, z: Sizes, x: string)
    requires x !in NamesOf(vs)
    ensures var r := NotingAll(vs, z);
      && (x in r.widths <==> x in z.widths) && (x in z.widths ==> r.widths[x] == z.widths[x])
      && (x in r.depths <==> x in z.depths) && (x in z.depths ==> r.depths[x] == z.depths[x])
    decreases |vs|
  {
    if vs != [] {
      assert NamesOf(vs)[0] == vs[0].name && NamesOf(vs)[1..] == NamesOf(vs[1..]);
      NotingKeeps(vs[1..], Noting(vs[0], z), x);
    }
  }

  predicate DistinctDecls(vs: seq<Decl>) {
    forall i, j | 0 <= i < j < |vs| :: vs[i].name != vs[j].name
  }

  lemma {:induction false} NotingLookup(vs: seq<Decl>, z: Sizes, k: nat)
    requires DistinctDecls(vs) && k < |vs| && vs[k].name !in z.depths
    ensures var r, v := NotingAll(vs, z), vs[k];
      && v.name in r.widths && r.widths[v.name] == v.width
      && (v.depth == 0 ==> v.name !in r.depths) && (v.depth > 0 ==> v.name in r.depths && r.depths[v.name] == v.depth)
    decreases |vs|
  {
    if k == 0 {
      assert forall i | 0 <= i < |vs[1..]| :: NamesOf(vs[1..])[i] == vs[i + 1].name;
      NotingKeeps(vs[1..], Noting(vs[0], z), vs[0].name);
    } else {
      NotingLookup(vs[1..], Noting(vs[0], z), k - 1);
    }
  }

  // ---------------------------------------------------------------------------
  // Finding the section
  // ---------------------------------------------------------------------------

  /** A title that would itself open the section. */
  predicate EndsAsVariables(title: string) {
    |title| >= 9 && title[|title| - 9..] == "VARIABLES"
  }

  lemma {:induction false} NoVarsHead(l: Line, more: bool, p: nat)
    requires p <= |l| && forall q | p <= q <= |l| :: !VarsAt(l, more, q)
    ensures VarsHead(l, more, p) == None
    decreases |l| - p
  {
    if p < |l| {
      NoVarsHead(l, more, p + 1);
    }
  }

  lemma VarsChars(l: Line, more: bool, q: nat)
    requires VarsAt(l, more, q)
    ensures l[q] == 'V' && l[q + 8] == 'S' && (q + 9 < |l| ==> Blank(l[q + 9]))
  {
    assert l[q..q + 9][0] == 'V' && l[q..q + 9][8] == 'S';
  }

  lemma NoVNoHead(l: Line, more: bool)
    requires 'V' !in l
    ensures VarsHead(l, more, 0) == None
  {
    forall q | 0 <= q <= |l|
      ensures !VarsAt(l, more, q)
    {
      if VarsAt(l, more, q) {
        VarsChars(l, more, q);
      }
    }
    NoVarsHead(l, more, 0);
  }

  /** A word between texts without `V` or `S` at their ends opens the section only by its own end. */
  lemma WordNoHead(a: string, w: string, b: string, more: bool)
    requires AllWord(w) && !EndsAsVariables(w) && 'V' !in a && 'V' !in b && 'S' !in b && b != "" && Blank(b[0])
    ensures VarsHead(a + w + b, more, 0) == None
  {
    var l := a + w + b;
    forall q | 0 <= q <= |l|
      ensures !VarsAt(l, more, q)
    {
      if VarsAt(l, more, q) {
        VarsChars(l, more, q);
        VarsInWord(a, w, b, more, q);
      }
    }
    NoVarsHead(l, more, 0);
  }

  lemma VarsInWord(a: string, w: string, b: string, more: bool, q: nat)
    requires AllWord(w) && 'V' !in a && 'V' !in b && 'S' !in b && b != "" && Blank(b[0]) && VarsAt(a + w + b, more, q)
    ensures EndsAsVariables(w) && q + 9 == |a| + |w|
  {
    var l, i := a + w + b, q - |a|;
    VarsChars(l, more, q);
    PlaceOf(a, w, b, q);
    PlaceOf(a, w, b, q + 8);
    assert |a| <= q && q + 9 <= |a| + |w|;
    PlaceOf(a, w, b, q + 9);
    assert l[q..q + 9] == w[i..i + 9];
  }

  lemma PlaceOf(a: string, w: string, b: string, k: nat)
    requires k < |a + w + b|
    ensures (a + w + b)[k] == if k < |a| then a[k] else if k < |a| + |w| then w[k - |a|] else b[k - |a| - |w|]
  {
  }

  lemma VarLineDefinesNothing(v: Decl, last: bool)
    requires AllWord(v.name)
    ensures !Defines(VarLine(INDENT, v, last))
  {
    PadsBlank();
    var a := Declaring(INDENT, v.name, last);
    var l := VarLine(INDENT, v, last);
    VarLineNoted(INDENT, v, last);
    DeclaringShape(INDENT, v.name, last);
    NotedShape(a, Numeral(v.width), DepthText(v.depth));
    assert forall k | 0 <= k < |a| :: l[k] == a[k];
    NoDefinition(l, |INDENT|, |INDENT| + |v.name|, |a|);
  }

  /** A word followed by separators and a comment mark is no definition. */
  lemma NoDefinition(l: Line, i: nat, j: nat, q: nat)
    requires 0 < i < j < q < |l| && (forall k | 0 <= k < i :: Blank(l[k])) && (forall k | i <= k < j :: Word(l[k]))
    requires (forall k | j <= k < q :: Separator(l[k])) && l[q] == '\\'
    ensures !Defines(l)
  {
    SkipIs(Blank, l, 0, i);
    SkipIs(Word, l, i, j);
    var m := Skip(Blank, l, j);
    assert m <= q;
    assert l[m] != '=';
    EqStarts(l, m);
    RuleStarts(l);
  }

  lemma EqStarts(l: Line, m: nat)
    ensures At(l, m, "==") ==> m < |l| && l[m] == '='
  {
    if At(l, m, "==") {
      assert l[m] == l[m..m + 2][0];
    }
  }

  lemma {:induction false} VarLinesDefineNothing(vs: seq<Decl>)
    requires AllNamed(vs)
    ensures forall k | 0 <= k < |VarLines(vs)| :: !Defines(VarLines(vs)[k])
  {
    if vs != [] {
      VarLineDefinesNothing(vs[0], |vs| == 1);
      VarLinesDefineNothing(vs[1..]);
    }
  }

  lemma InitDefines()
    ensures Defines(INIT + " ==") && !Defines("")
  {
    var l := INIT + " ==";
    SkipIs(Blank, l, 0, 0);
    SkipIs(Word, l, 0, 4);
    SkipIs(Blank, l, 4, 5);
    assert l[5..7] == "==";
  }

  lemma DeclStripped(v: Decl, last: bool)
    requires AllWord(v.name)
    ensures var l := VarLine(INDENT, v, last); LStrip(l) == VarLine("", v, last) && LStrip(l) != ""
  {
    var l := VarLine(INDENT, v, last);
    assert l == INDENT + VarLine("", v, last) && l[4] == v.name[0];
    SkipIs(Blank, l, 0, 4);
    assert l[4..] == VarLine("", v, last);
  }

  lemma DeclShape(vs: seq<Decl>, rest: seq<Line>)
    requires vs != []
    ensures VarLines(vs) + ([""] + rest) == [VarLine(INDENT, vs[0], |vs| == 1)] + ((VarLines(vs[1..]) + [""]) + rest)
  {
    Regroup([VarLine(INDENT, vs[0], |vs| == 1)], VarLines(vs[1..]), [""] + rest);
    Regroup(VarLines(vs[1..]), [""], rest);
  }

  /** Lines of declarations up to the next definition. */
  lemma DeclBody(vs: seq<Decl>, rest: seq<Line>)
    requires AllNamed(vs) && vs != [] && rest != [] && Defines(rest[0])
    ensures Body(Defines, "", VarLines(vs) + ([""] + rest)) == [VarLine("", vs[0], |vs| == 1)] + (VarLines(vs[1..]) + [""])
  {
    var more := VarLines(vs[1..]) + [""];
    DeclShape(vs, rest);
    DeclStripped(vs[0], |vs| == 1);
    BodyFound(Defines, VarLine(INDENT, vs[0], |vs| == 1), more + rest);
    VarLinesDefineNothing(vs[1..]);
    InitDefines();
    UptoAll(Defines, more, rest);
  }

  lemma VarsHere(rest: seq<Line>)
    requires rest != []
    ensures VarsBlock(["VARIABLES"] + rest) == Some(Body(Defines, "", rest))
  {
    var l := "VARIABLES";
    assert VarsAt(l, true, 0);
    assert VarsHead(l, true, 0) == Some(9) && l[9..] == "";
    assert (["VARIABLES"] + rest)[1..] == rest;
  }

  lemma VarsBehind(l: Line, rest: seq<Line>)
    requires rest != [] && VarsHead(l, true, 0) == None
    ensures VarsBlock([l] + rest) == VarsBlock(rest)
  {
    assert ([l] + rest)[1..] == rest;
  }

  lemma TitleNoHead(title: string)
    requires AllWord(title) && !EndsAsVariables(title)
    ensures VarsHead(TitleLine(title), true, 0) == None
  {
    TitleLiterals();
    WordNoHead(TITLE, title, " " + RULE, true);
  }

  lemma VarsFound(title: string, vs: seq<Decl>, rest: seq<Line>)
    requires AllWord(title) && !EndsAsVariables(title) && AllNamed(vs) && vs != [] && rest != [] && Defines(rest[0])
    ensures VarsBlock([TitleLine(title)] + (["EXTENDS Integers"] + ([""] + (["VARIABLES"] + (VarLines(vs) + ([""] + rest)))))) ==
      Some([VarLine("", vs[0], |vs| == 1)] + (VarLines(vs[1..]) + [""]))
  {
    var d := VarLines(vs) + ([""] + rest);
    TitleNoHead(title);
    NoVNoHead("EXTENDS Integers", true);
    NoVNoHead("", true);
    VarsBehind(TitleLine(title), ["EXTENDS Integers"] + ([""] + (["VARIABLES"] + d)));
    VarsBehind("EXTENDS Integers", [""] + (["VARIABLES"] + d));
    VarsBehind("", ["VARIABLES"] + d);
    VarsHere(d);
    DeclBody(vs, rest);
  }

  lemma TextOpens(d: Design, port: string, activeLow: bool)
    ensures var rest := [INIT + " ==", INDENT + "/\\ " + d.init, ""] + CombSection(CombActs(d.acts, d)) +
        PipeSection(ResetUpdates(d.acts, d), d.next, port, activeLow) + [Footer(d.title)];
      Text(d, port, activeLow) == [TitleLine(d.title)] + (["EXTENDS Integers"] + ([""] + (["VARIABLES"] + (VarLines(SizedVars(d, port)) + ([""] + rest)))))
  {
    var v := VarLines(SizedVars(d, port));
    var i := [INIT + " ==", INDENT + "/\\ " + d.init, ""];
    var c, p, f := CombSection(CombActs(d.acts, d)), PipeSection(ResetUpdates(d.acts, d), d.next, port, activeLow), [Footer(d.title)];
    OpensShape([TitleLine(d.title), "EXTENDS Integers", "", "VARIABLES"], v, [""], i, c, p, f);
    FourShape(TitleLine(d.title), "EXTENDS Integers", "", "VARIABLES", v + ([""] + (i + c + p + f)));
  }

  lemma OpensShape(h: seq<Line>, v: seq<Line>, b: seq<Line>, i: seq<Line>, c: seq<Line>, p: seq<Line>, f: seq<Line>)
    ensures (h + v + b + i) + c + p + f == h + (v + (b + (i + c + p + f)))
  {
    Regroup5(h, v, b, i, c);
    Regroup5(h, v, b, i + c, p);
    Regroup5(h, v, b, i + c + p, f);
  }

  lemma FourShape(a: Line, b: Line, c: Line, d: Line, rest: seq<Line>)
    ensures [a, b, c, d] + rest == [a] + ([b] + ([c] + ([d] + rest)))
  {
  }

  /** Every declared name comes back, in order, with its width and depth. */
  lemma DeclarationsReadBack(d: Design, port: string, activeLow: bool, z: Sizes)
    requires WellTexted(d, port) && !EndsAsVariables(d.title)
    ensures var b := VarsBlock(Text(d, port, activeLow));
      b.Some? && AllWords(b.value) == NamesOf(SizedVars(d, port)) && AllSized(b.value, z) == NotingAll(SizedVars(d, port), z)
  {
    var vs := SizedVars(d, port);
    var rest := [INIT + " ==", INDENT + "/\\ " + d.init, ""] + CombSection(CombActs(d.acts, d)) +
      PipeSection(ResetUpdates(d.acts, d), d.next, port, activeLow) + [Footer(d.title)];
    SizedVarsNamed(d, port);
    TextOpens(d, port, activeLow);
    InitDefines();
    VarsFound(d.title, vs, rest);
    SectionReadsBack(vs, z);
  }

  // ---------------------------------------------------------------------------
  // A title that opens the section
  // ---------------------------------------------------------------------------

  lemma {:induction false} VarsHeadSome(l: Line, more: bool, p: nat, q: nat)
    requires p <= q <= |l| && VarsAt(l, more, q)
    ensures VarsHead(l, more, p).Some?
    decreases q - p
  {
    if p < q {
      VarsHeadSome(l, more, p + 1, q);
    }
  }

  lemma HeadInWord(a: string, w: string, b: string)
    requires AllWord(w) && EndsAsVariables(w) && 'V' !in a && 'V' !in b && 'S' !in b && b != "" && Blank(b[0])
    ensures VarsHead(a + w + b, true, 0) == Some(|a| + |w|) && (a + w + b)[|a| + |w|..] == b
  {
    var l, q := a + w + b, |a| + |w| - 9;
    assert l[q..q + 9] == w[|w| - 9..];
    PlaceOf(a, w, b, q + 9);
    assert VarsAt(l, true, q);
    VarsHeadSome(l, true, 0, q);
    VarsInWord(a, w, b, true, VarsHead(l, true, 0).value - 9);
  }

  /** A title ending in the section's own name opens it at its end. */
  lemma TitleHead(title: string) returns (r: nat)
    requires AllWord(title) && EndsAsVariables(title)
    ensures var l := TitleLine(title); r <= |l| && VarsHead(l, true, 0) == Some(r) && LStrip(l[r..]) == RULE && RULE != ""
  {
    TitleLiterals();
    HeadInWord(TITLE, title, " " + RULE);
    r := 28 + |title|;
    RuleLine();
  }

  lemma RuleLine()
    ensures LStrip(" " + RULE) == RULE
  {
    var l := " " + RULE;
    TitleLiterals();
    assert l[0] == ' ' && l[1] == RULE[0];
    SkipIs(Blank, l, 0, 1);
    assert l[1..] == RULE;
  }

  lemma NoEqDefinesNothing(l: Line)
    requires NoEq(l)
    ensures !Defines(l)
  {
    var i := Skip(Blank, l, 0);
    EqStarts(l, Skip(Blank, l, Skip(Word, l, i)));
    RuleStarts(l);
  }

  lemma HeaderNoEq()
    ensures NoEq("EXTENDS Integers") && NoEq("") && NoEq("VARIABLES")
  {
  }

  /** The lines between the title and the next definition. */
  function EarlyLines(vs: seq<Decl>): seq<Line> {
    ["EXTENDS Integers", "", "VARIABLES"] + (VarLines(vs) + [""])
  }

  ghost predicate AllInside(ls: seq<Line>) {
    forall k | 0 <= k < |ls| :: !Defines(ls[k])
  }

  lemma InsideAppend(a: seq<Line>, b: seq<Line>)
    requires AllInside(a) && AllInside(b)
    ensures AllInside(a + b)
  {
  }

  lemma ThreeInside(a: Line, b: Line, c: Line)
    requires NoEq(a) && NoEq(b) && NoEq(c)
    ensures AllInside([a, b, c])
  {
    NoEqDefinesNothing(a);
    NoEqDefinesNothing(b);
    NoEqDefinesNothing(c);
  }

  lemma EarlyLinesInside(vs: seq<Decl>)
    requires AllNamed(vs)
    ensures AllInside(EarlyLines(vs))
  {
    HeaderNoEq();
    ThreeInside("EXTENDS Integers", "", "VARIABLES");
    VarLinesDefineNothing(vs);
    NoEqDefinesNothing("");
    InsideAppend(VarLines(vs), [""]);
    InsideAppend(["EXTENDS Integers", "", "VARIABLES"], VarLines(vs) + [""]);
  }

  lemma OneWord(s: string)
    requires AllWord(s)
    ensures Words(Uncomment(s), 0) == [s]
  {
    WordCalm(s);
    UncommentUnmarked(s);
    SkipIs(Separator, s, 0, 0);
    SkipIs(c => !Separator(c), s, 0, |s|);
    assert s[0..|s|] == s;
    assert Words(s, |s|) == [];
  }

  lemma VarsWord()
    ensures Words(Uncomment("VARIABLES"), 0) == ["VARIABLES"]
  {
    OneWord("VARIABLES");
  }

  /** Then the header's own lines are read as declarations too. */
  lemma TooEarlyBlock(title: string, vs: seq<Decl>, rest: seq<Line>)
    requires AllWord(title) && EndsAsVariables(title) && AllNamed(vs) && rest != [] && Defines(rest[0])
    ensures VarsBlock([TitleLine(title)] + (["EXTENDS Integers"] + ([""] + (["VARIABLES"] + (VarLines(vs) + ([""] + rest)))))) ==
      Some([RULE] + EarlyLines(vs))
  {
    var r := TitleHead(title);
    EarlyLinesInside(vs);
    EarlyShape("EXTENDS Integers", "", "VARIABLES", VarLines(vs), rest);
    EarlyBlock(TitleLine(title), r, RULE, EarlyLines(vs), rest);
  }

  lemma EarlyBlock(l: Line, r: nat, rule: Line, inside: seq<Line>, rest: seq<Line>)
    requires r <= |l| && VarsHead(l, true, 0) == Some(r) && LStrip(l[r..]) == rule && rule != ""
    requires AllInside(inside) && rest != [] && Defines(rest[0])
    ensures VarsBlock([l] + (inside + rest)) == Some([rule] + inside)
  {
    UptoAll(Defines, inside, rest);
    VarsOpened(l, inside + rest, r);
  }

  lemma EarlyShape(a: Line, b: Line, c: Line, v: seq<Line>, rest: seq<Line>)
    ensures [a] + ([b] + ([c] + (v + ([""] + rest)))) == [a, b, c] + (v + [""]) + rest
  {
    FourShape(a, b, c, "", rest);
    Regroup(v, [""], rest);
    Regroup([a, b, c], v + [""], rest);
  }

  lemma VarsOpened(l: Line, rest: seq<Line>, r: nat)
    requires rest != [] && VarsHead(l, true, 0) == Some(r) && LStrip(l[r..]) != ""
    ensures VarsBlock([l] + rest) == Some([LStrip(l[r..])] + Upto(Defines, rest))
  {
    assert ([l] + rest)[1..] == rest;
  }

  lemma TooManyWords(vs: seq<Decl>)
    requires AllNamed(vs)
    ensures |AllWords([RULE] + EarlyLines(vs))| > |vs|
  {
    var d, z := VarLines(vs) + [""], Sizes(map[], map[]);
    ThreeInFront("EXTENDS Integers", "", "VARIABLES", d);
    SizedFirst(RULE, ["EXTENDS Integers"] + ([""] + (["VARIABLES"] + d)), z);
    SizedFirst("EXTENDS Integers", [""] + (["VARIABLES"] + d), z);
    SizedFirst("", ["VARIABLES"] + d, z);
    SizedFirst("VARIABLES", d, z);
    VarsWord();
    DeclsReadBack(vs, z);
  }

  lemma ThreeInFront(a: Line, b: Line, c: Line, d: seq<Line>)
    ensures [a, b, c] + d == [a] + ([b] + ([c] + d))
  {
  }

  /** The names come back as declared exactly when the title does not end in the section's own name. */
  lemma NamesReadBackIff(d: Design, port: string, activeLow: bool)
    requires WellTexted(d, port)
    ensures var b := VarsBlock(Text(d, port, activeLow));
      b.Some? && (AllWords(b.value) == NamesOf(SizedVars(d, port)) <==> !EndsAsVariables(d.title))
  {
    if EndsAsVariables(d.title) {
      var vs := SizedVars(d, port);
      var rest := [INIT + " ==", INDENT + "/\\ " + d.init, ""] + CombSection(CombActs(d.acts, d)) +
        PipeSection(ResetUpdates(d.acts, d), d.next, port, activeLow) + [Footer(d.title)];
      SizedVarsNamed(d, port);
      TextOpens(d, port, activeLow);
      InitDefines();
      TooEarlyBlock(d.title, vs, rest);
      TooManyWords(vs);
    } else {
      DeclarationsReadBack(d, port, activeLow, Sizes(map[], map[]));
    }
  }

  /** Every section at once: what a compiler that starts empty reads from the printed text. */
  lemma PrintedReadsBack(d: Design, port: string, activeLow: bool)
    requires WellTexted(d, port) && !EndsAsVariables(d.title) && DistinctDecls(SizedVars(d, port))
    requires AllUpdates(CombActs(d.acts, d)) != [] || CombActs(d.acts, d) == []
    ensures var ls, vs := Text(d, port, activeLow), SizedVars(d, port);
      && VarsBlock(ls).Some? && AllWords(VarsBlock(ls).value) == NamesOf(vs)
      && (var z := AllSized(VarsBlock(ls).value, Sizes(map[], map[])); forall k | 0 <= k < |vs| ::
           && vs[k].name in z.widths && z.widths[vs[k].name] == vs[k].width
           && (vs[k].depth == 0 ==> vs[k].name !in z.depths)
           && (vs[k].depth > 0 ==> vs[k].name in z.depths && z.depths[vs[k].name] == vs[k].depth))
      && CombRead(port, ls) == Kept(port, AllUpdates(CombActs(d.acts, d)))
      && SeqRead(port, ls) == (Kept(port, ResetList(ResetUpdates(d.acts, d))), Kept(port, d.next))
  {
    var vs, z := SizedVars(d, port), Sizes(map[], map[]);
    DeclarationsReadBack(d, port, activeLow, z);
    forall k | 0 <= k < |vs|
      ensures var r, v := NotingAll(vs, z), vs[k];
        && v.name in r.widths && r.widths[v.name] == v.width
        && (v.depth == 0 ==> v.name !in r.depths) && (v.depth > 0 ==> v.name in r.depths && r.depths[v.name] == v.depth)
    {
      NotingLookup(vs, z, k);
    }
    CombinationalReadsBackIff(d, port, activeLow);
    SequentialReadsBack(d, port, activeLow);
  }
}
