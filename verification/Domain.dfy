/**
  The input domain of the obligation kernel: the cartesian product the reference kernel
  materialises, the odometer the native kernel turns instead, and the sampled battery both fall
  back to when the product is too large.
  */
module Domain {
  import opened Expressions

  type Row = seq<nat>

  // ---------------------------------------------------------------------------
  // The product, as an ordered list
  // ---------------------------------------------------------------------------

  function Extend(prev: Row, xs: seq<nat>): (r: seq<Row>)
    ensures |r| == |xs|
  {
    seq(|xs|, k requires 0 <= k < |xs| => prev + [xs[k]])
  }

  /** Every row of `rs` extended by every value of `xs`, rows slowest. */
  function Cross(rs: seq<Row>, xs: seq<nat>): seq<Row> {
    if rs == [] then [] else Extend(rs[0], xs) + Cross(rs[1..], xs)
  }

  function ProductLists(lists: seq<seq<nat>>): seq<Row> {
    if lists == [] then [[]] else Cross(ProductLists(lists[..|lists| - 1]), lists[|lists| - 1])
  }

  function Range(n: nat): (r: seq<nat>)
    ensures |r| == n && forall k | 0 <= k < n :: r[k] == k
  {
    seq(n, k => k)
  }

  function Ranges(sizes: seq<nat>): seq<seq<nat>> {
    seq(|sizes|, k requires 0 <= k < |sizes| => Range(sizes[k]))
  }

  function Product(sizes: seq<nat>): seq<Row> {
    ProductLists(Ranges(sizes))
  }

  function Total(sizes: seq<nat>): nat {
    if sizes == [] then 1 else Total(sizes[..|sizes| - 1]) * sizes[|sizes| - 1]
  }

  predicate InBox(v: Row, sizes: seq<nat>) {
    |v| == |sizes| && forall k | 0 <= k < |v| :: v[k] < sizes[k]
  }

  lemma {:induction false} CrossAppend(a: seq<Row>, b: seq<Row>, xs: seq<nat>)
    ensures Cross(a + b, xs) == Cross(a, xs) + Cross(b, xs)
  {
    if a == [] {
      assert a + b == b;
    } else {
      assert (a + b)[1..] == a[1..] + b;
      CrossAppend(a[1..], b, xs);
    }
  }

  lemma {:induction false} CrossHas(rs: seq<Row>, xs: seq<nat>, v: Row)
    ensures v in Cross(rs, xs) <==> |v| > 0 && v[..|v| - 1] in rs && v[|v| - 1] in xs
  {
    if rs != [] {
      CrossHas(rs[1..], xs, v);
      var row := Extend(rs[0], xs);
      if v in row {
        var k :| 0 <= k < |row| && row[k] == v;
        assert v[..|v| - 1] == rs[0];
      }
      if |v| > 0 && v[..|v| - 1] == rs[0] && v[|v| - 1] in xs {
        var k :| 0 <= k < |xs| && xs[k] == v[|v| - 1];
        assert row[k] == v;
      }
      assert rs == [rs[0]] + rs[1..];
      assert v in Cross(rs, xs) <==> v in row || v in Cross(rs[1..], xs);
    }
  }

  lemma {:induction false} CrossLength(rs: seq<Row>, xs: seq<nat>)
    ensures |Cross(rs, xs)| == |rs| * |xs|
  {
    if rs != [] {
      CrossLength(rs[1..], xs);
      assert |rs| * |xs| == |xs| + (|rs| - 1) * |xs|;
    }
  }

  lemma RangesPrefix(sizes: seq<nat>)
    requires sizes != []
    ensures Ranges(sizes)[..|sizes| - 1] == Ranges(sizes[..|sizes| - 1])
    ensures Product(sizes) == Cross(Product(sizes[..|sizes| - 1]), Range(sizes[|sizes| - 1]))
  {
    var init := sizes[..|sizes| - 1];
    assert Ranges(sizes)[..|sizes| - 1] == Ranges(init);
  }

  lemma {:induction false} ProductListsHas(lists: seq<seq<nat>>, v: Row)
    ensures v in ProductLists(lists) <==> |v| == |lists| && forall k | 0 <= k < |v| :: v[k] in lists[k]
  {
    if lists != [] {
      var n := |lists| - 1;
      CrossHas(ProductLists(lists[..n]), lists[n], v);
      if |v| > 0 {
        ProductListsHas(lists[..n], v[..|v| - 1]);
        if |v| == |lists| {
          assert forall k | 0 <= k < n :: v[..n][k] == v[k] && lists[..n][k] == lists[k];
        }
      }
    }
  }

  lemma RangeHas(n: nat, x: nat)
    ensures x in Range(n) <==> x < n
  {
    if x < n {
      assert Range(n)[x] == x;
    }
  }

  /** The product lists exactly the valuations in the box. */
  lemma ProductHas(sizes: seq<nat>, v: Row)
    ensures v in Product(sizes) <==> InBox(v, sizes)
  {
    ProductListsHas(Ranges(sizes), v);
    forall k | 0 <= k < |v| && |v| == |sizes|
      ensures v[k] in Ranges(sizes)[k] <==> v[k] < sizes[k]
    {
      RangeHas(sizes[k], v[k]);
    }
  }

  lemma {:induction false} ProductLength(sizes: seq<nat>)
    ensures |Product(sizes)| == Total(sizes)
  {
    if sizes == [] {
      assert Product(sizes) == [[]];
    } else {
      var n := |sizes| - 1;
      RangesPrefix(sizes);
      ProductLength(sizes[..n]);
      CrossLength(Product(sizes[..n]), Range(sizes[n]));
    }
  }

  // ---------------------------------------------------------------------------
  // The order of the product: the next row is the odometer's next reading
  // ---------------------------------------------------------------------------

  /** The next reading, last digit fastest; None after the last one. */
  function Succ(sizes: seq<nat>, v: Row): Option<Row>
    requires |v| == |sizes|
  {
    if v == [] then None
    else
      var n := |v| - 1;
      if v[n] + 1 < sizes[n] then Some(v[..n] + [v[n] + 1])
      else match Succ(sizes[..n], v[..n])
        case None => None
        case Some(p) => Some(p + [0])
  }

  predicate AllPositive(sizes: seq<nat>) {
    forall k | 0 <= k < |sizes| :: sizes[k] > 0
  }

  /** Row `k` is followed by the odometer's next reading. */
  predicate TurnsAt(sizes: seq<nat>, rs: seq<Row>, k: nat) {
    k + 1 < |rs| && |rs[k]| == |sizes| && Succ(sizes, rs[k]) == Some(rs[k + 1])
  }

  ghost predicate AllInBox(sizes: seq<nat>, rs: seq<Row>) {
    forall k | 0 <= k < |rs| :: InBox(rs[k], sizes)
  }

  ghost predicate AllTurn(sizes: seq<nat>, rs: seq<Row>) {
    forall k | 0 <= k < |rs| - 1 :: TurnsAt(sizes, rs, k)
  }

  /** `rs` runs through readings one after the other and ends with the last one. */
  ghost predicate Turning(sizes: seq<nat>, rs: seq<Row>) {
    rs != [] && AllInBox(sizes, rs) && AllTurn(sizes, rs) && Succ(sizes, rs[|rs| - 1]) == None
  }

  /** Extending one row by every value turns only the last digit. */
  lemma RowTurns(sizes: seq<nat>, p: Row)
    requires sizes != [] && InBox(p, sizes[..|sizes| - 1])
    ensures var row := Extend(p, Range(sizes[|sizes| - 1]));
      AllInBox(sizes, row) && AllTurn(sizes, row) && forall k | 0 <= k < |row| :: |row[k]| == |sizes|
  {
    var n := |sizes| - 1;
    var row := Extend(p, Range(sizes[n]));
    forall k | 0 <= k < |row| - 1
      ensures TurnsAt(sizes, row, k)
    {
      assert row[k][..n] == p;
    }
  }

  /** After the last value of a row comes the first value of the next row. */
  lemma RowEnd(sizes: seq<nat>, p: Row)
    requires sizes != [] && sizes[|sizes| - 1] > 0 && |p| == |sizes| - 1
    ensures var row := Extend(p, Range(sizes[|sizes| - 1]));
      Succ(sizes, row[|row| - 1]) ==
        match Succ(sizes[..|sizes| - 1], p) { case None => None case Some(q) => Some(q + [0]) }
  {
    var n := |sizes| - 1;
    var row := Extend(p, Range(sizes[n]));
    assert row[|row| - 1][..n] == p;
  }

  lemma TurningTail(sizes: seq<nat>, rs: seq<Row>)
    requires Turning(sizes, rs) && |rs| > 1
    ensures Turning(sizes, rs[1..]) && Succ(sizes, rs[0]) == Some(rs[1..][0])
  {
    var rest := rs[1..];
    assert TurnsAt(sizes, rs, 0);
    forall k | 0 <= k < |rest| - 1
      ensures TurnsAt(sizes, rest, k)
    {
      assert TurnsAt(sizes, rs, k + 1);
      assert rest[k] == rs[k + 1] && rest[k + 1] == rs[k + 2];
    }
  }

  lemma BoxesJoin(sizes: seq<nat>, a: seq<Row>, b: seq<Row>)
    requires AllInBox(sizes, a) && AllInBox(sizes, b)
    ensures AllInBox(sizes, a + b)
  {
  }

  lemma TurnsJoin(sizes: seq<nat>, a: seq<Row>, b: seq<Row>)
    requires a != [] && b != [] && AllTurn(sizes, a) && AllTurn(sizes, b)
    requires |a[|a| - 1]| == |sizes| && Succ(sizes, a[|a| - 1]) == Some(b[0])
    ensures AllTurn(sizes, a + b)
  {
    forall k | 0 <= k < |a + b| - 1
      ensures TurnsAt(sizes, a + b, k)
    {
      TurnsJoined(sizes, a, b, k);
    }
  }

  lemma LastJoined(a: seq<Row>, b: seq<Row>)
    requires b != []
    ensures (a + b)[|a + b| - 1] == b[|b| - 1]
  {
  }

  lemma TurningJoin(sizes: seq<nat>, row: seq<Row>, tail: seq<Row>)
    requires row != [] && AllInBox(sizes, row) && AllTurn(sizes, row) && |row[|row| - 1]| == |sizes|
    requires tail != [] && AllInBox(sizes, tail) && AllTurn(sizes, tail) && Succ(sizes, tail[|tail| - 1]) == None
    requires Succ(sizes, row[|row| - 1]) == Some(tail[0])
    ensures Turning(sizes, row + tail)
  {
    assert AllInBox(sizes, row + tail) by {
      BoxesJoin(sizes, row, tail);
    }
    assert AllTurn(sizes, row + tail) by {
      TurnsJoin(sizes, row, tail);
    }
    LastJoined(row, tail);
  }

  lemma TurnsJoined(sizes: seq<nat>, a: seq<Row>, b: seq<Row>, k: nat)
    requires a != [] && b != [] && k < |a| + |b| - 1
    requires k < |a| - 1 ==> TurnsAt(sizes, a, k)
    requires k == |a| - 1 ==> |a[k]| == |sizes| && Succ(sizes, a[k]) == Some(b[0])
    requires k >= |a| ==> TurnsAt(sizes, b, k - |a|)
    ensures TurnsAt(sizes, a + b, k)
  {
    ConcatAt(a, b, k);
    ConcatAt(a, b, k + 1);
  }

  lemma ConcatAt(a: seq<Row>, b: seq<Row>, k: nat)
    requires k < |a| + |b|
    ensures (a + b)[k] == if k < |a| then a[k] else b[k - |a|]
  {
  }

  lemma {:induction false} CrossTurns(sizes: seq<nat>, rs: seq<Row>)
    requires sizes != [] && sizes[|sizes| - 1] > 0
    requires Turning(sizes[..|sizes| - 1], rs)
    ensures var c := Cross(rs, Range(sizes[|sizes| - 1]));
      Turning(sizes, c) && c[0] == rs[0] + [0]
    decreases |rs|
  {
    var n := |sizes| - 1;
    var row := Extend(rs[0], Range(sizes[n]));
    RowTurns(sizes, rs[0]);
    RowEnd(sizes, rs[0]);
    if |rs| == 1 {
      assert Cross(rs, Range(sizes[n])) == row;
    } else {
      TurningTail(sizes[..n], rs);
      CrossTurns(sizes, rs[1..]);
      TurningJoin(sizes, row, Cross(rs[1..], Range(sizes[n])));
    }
  }

  /** The product begins with all zeros and steps through the box like an odometer. */
  lemma {:induction false} ProductTurns(sizes: seq<nat>)
    requires AllPositive(sizes)
    ensures Turning(sizes, Product(sizes))
    ensures Product(sizes)[0] == seq(|sizes|, _ => 0)
  {
    if sizes == [] {
      assert Product(sizes) == [[]];
    } else {
      var n := |sizes| - 1;
      RangesPrefix(sizes);
      ProductTurns(sizes[..n]);
      CrossTurns(sizes, Product(sizes[..n]));
    }
  }

  /** A reading grows at every turn, so no valuation is visited twice. */
  function Reading(sizes: seq<nat>, v: Row): nat
    requires |v| == |sizes|
  {
    if v == [] then 0
    else Reading(sizes[..|v| - 1], v[..|v| - 1]) * sizes[|v| - 1] + v[|v| - 1]
  }

  lemma ReadingSnoc(sizes: seq<nat>, p: Row, x: nat)
    requires |sizes| == |p| + 1
    ensures Reading(sizes, p + [x]) == Reading(sizes[..|p|], p) * sizes[|p|] + x
  {
    assert (p + [x])[..|p|] == p;
  }

  lemma Carry(r: nat, m: nat)
    ensures (r + 1) * m == r * m + m
  {
  }

  lemma {:induction false} SuccReads(sizes: seq<nat>, v: Row)
    requires InBox(v, sizes)
    ensures Succ(sizes, v).Some? ==>
      InBox(Succ(sizes, v).value, sizes) && Reading(sizes, Succ(sizes, v).value) == Reading(sizes, v) + 1
  {
    if v != [] {
      var n := |v| - 1;
      var p := v[..n];
      assert v == p + [v[n]];
      ReadingSnoc(sizes, p, v[n]);
      SuccReads(sizes[..n], p);
      if v[n] + 1 < sizes[n] {
        ReadingSnoc(sizes, p, v[n] + 1);
      } else if Succ(sizes[..n], p).Some? {
        ReadingSnoc(sizes, Succ(sizes[..n], p).value, 0);
        Carry(Reading(sizes[..n], p), sizes[n]);
      }
    }
  }

  lemma {:induction false} ReadingIsPosition(sizes: seq<nat>, k: nat)
    requires AllPositive(sizes) && k < |Product(sizes)|
    ensures InBox(Product(sizes)[k], sizes) && Reading(sizes, Product(sizes)[k]) == k
    decreases k
  {
    ProductTurns(sizes);
    if k == 0 {
      ReadingOfZeros(sizes);
    } else {
      ReadingIsPosition(sizes, k - 1);
      assert TurnsAt(sizes, Product(sizes), k - 1);
      SuccReads(sizes, Product(sizes)[k - 1]);
    }
  }

  lemma {:induction false} ReadingOfZeros(sizes: seq<nat>)
    ensures Reading(sizes, seq(|sizes|, _ => 0)) == 0
  {
    var z: Row := seq(|sizes|, _ => 0);
    if sizes != [] {
      var n := |sizes| - 1;
      ReadingOfZeros(sizes[..n]);
      var z': Row := seq(n, _ => 0);
      assert z[..n] == z';
    }
  }

  lemma ProductDistinct(sizes: seq<nat>, i: nat, j: nat)
    requires AllPositive(sizes) && i < j < |Product(sizes)|
    ensures Product(sizes)[i] != Product(sizes)[j]
  {
    ReadingIsPosition(sizes, i);
    ReadingIsPosition(sizes, j);
  }

  // ---------------------------------------------------------------------------
  // The reference kernel builds the list
  // ---------------------------------------------------------------------------

  /** `_product_lists`: grow the rows one list at a time. */
  method BuildProduct(lists: seq<seq<nat>>) returns (result: seq<Row>)
    ensures result == ProductLists(lists)
  {
    result := [[]];
    for l := 0 to |lists|
      invariant result == ProductLists(lists[..l])
    {
      var lst := lists[l];
      var next: seq<Row> := [];
      for p := 0 to |result|
        invariant next == Cross(result[..p], lst)
      {
        var prev := result[p];
        var row: seq<Row> := [];
        for x := 0 to |lst|
          invariant row == Extend(prev, lst)[..x]
        {
          row := row + [prev + [lst[x]]];
        }
        CrossAppend(result[..p], [prev], lst);
        assert result[..p + 1] == result[..p] + [prev];
        assert Cross([prev], lst) == Extend(prev, lst) + [];
        next := next + row;
      }
      assert result[..|result|] == result;
      assert lists[..l + 1][..l] == lists[..l];
      result := next;
    }
    assert lists[..|lists|] == lists;
  }

  // ---------------------------------------------------------------------------
  // The sampled battery (the same steps in both kernels)
  // ---------------------------------------------------------------------------

  /** 0, 1 and the maximum of a domain of `s` values, each once and in order. */
  function Edges(s: nat): (r: seq<nat>)
    requires s > 0
    ensures forall x :: x in r <==> x < s && (x == 0 || x == 1 || x == s - 1)
    ensures forall i, j | 0 <= i < j < |r| :: r[i] < r[j]
  {
    if s == 1 then [0] else if s == 2 then [0, 1] else [0, 1, s - 1]
  }

  function EdgeSets(sizes: seq<nat>): seq<seq<nat>>
    requires AllPositive(sizes)
  {
    seq(|sizes|, k requires 0 <= k < |sizes| => Edges(sizes[k]))
  }

  const SAMPLES: nat := 256

  function Mixed(i: nat, j: nat): nat {
    (i * (37 + 7 * j) + 11 + 3 * j) * (1 + j)
  }

  function Spread(sizes: seq<nat>, i: nat): (r: Row)
    requires AllPositive(sizes)
  {
    seq(|sizes|, j requires 0 <= j < |sizes| => Mixed(i, j) % sizes[j])
  }

  function Spreads(sizes: seq<nat>): seq<Row>
    requires AllPositive(sizes)
  {
    seq(SAMPLES, (i: nat) => Spread(sizes, i))
  }

  /** The rows with every later repetition dropped. */
  function Dedup(rows: seq<Row>): seq<Row> {
    if rows == [] then []
    else
      var n := |rows| - 1;
      var init := Dedup(rows[..n]);
      if rows[n] in rows[..n] then init else init + [rows[n]]
  }

  lemma {:induction false} DedupKeeps(rows: seq<Row>)
    ensures forall v :: v in Dedup(rows) <==> v in rows
    ensures forall i, j | 0 <= i < j < |Dedup(rows)| :: Dedup(rows)[i] != Dedup(rows)[j]
  {
    if rows != [] {
      var n := |rows| - 1;
      DedupKeeps(rows[..n]);
      assert rows == rows[..n] + [rows[n]];
    }
  }

  function Battery(sizes: seq<nat>): seq<Row>
    requires AllPositive(sizes)
  {
    Dedup(ProductLists(EdgeSets(sizes)) + Spreads(sizes))
  }

  /** The battery stays inside the box and tries every combination of edge values. */
  lemma BatteryInBox(sizes: seq<nat>, v: Row)
    requires AllPositive(sizes)
    ensures v in Battery(sizes) ==> InBox(v, sizes)
    ensures |v| == |sizes| && (forall k | 0 <= k < |v| :: v[k] in Edges(sizes[k])) ==> v in Battery(sizes)
  {
    var rows := ProductLists(EdgeSets(sizes)) + Spreads(sizes);
    DedupKeeps(rows);
    ProductListsHas(EdgeSets(sizes), v);
    if v in Spreads(sizes) {
      var i :| 0 <= i < SAMPLES && Spreads(sizes)[i] == v;
      assert v == Spread(sizes, i);
    }
  }

  /** `v` is 0, 1 or the maximum in every coordinate. */
  predicate OnEdges(v: Row, sizes: seq<nat>) {
    |v| == |sizes| && forall k | 0 <= k < |v| :: v[k] < sizes[k] && (v[k] <= 1 || v[k] + 1 == sizes[k])
  }

  /** `v` is the `i`-th row of the pseudo-random spread. */
  predicate IsSample(v: Row, sizes: seq<nat>, i: nat)
    requires AllPositive(sizes)
  {
    |v| == |sizes| && forall k | 0 <= k < |v| :: v[k] == (i * (37 + 7 * k) + 11 + 3 * k) * (1 + k) % sizes[k]
  }

  /** The battery is every combination of edge values and 256 samples, and nothing else. */
  lemma BatteryIff(sizes: seq<nat>, v: Row)
    requires AllPositive(sizes)
    ensures v in Battery(sizes) <==> OnEdges(v, sizes) || exists i :: 0 <= i < 256 && IsSample(v, sizes, i)
  {
    var edges, spreads := ProductLists(EdgeSets(sizes)), Spreads(sizes);
    DedupKeeps(edges + spreads);
    ProductListsHas(EdgeSets(sizes), v);
    assert v in edges <==> OnEdges(v, sizes);
    if v in spreads {
      var i :| 0 <= i < 256 && spreads[i] == v;
      SampleIs(sizes, v, i);
    }
    if exists i :: 0 <= i < 256 && IsSample(v, sizes, i) {
      var i :| 0 <= i < 256 && IsSample(v, sizes, i);
      SampleIs(sizes, v, i);
      assert spreads[i] == v;
    }
  }

  lemma SampleIs(sizes: seq<nat>, v: Row, i: nat)
    requires AllPositive(sizes)
    ensures v == Spread(sizes, i) <==> IsSample(v, sizes, i)
  {
    var r := Spread(sizes, i);
    assert forall k | 0 <= k < |sizes| :: r[k] == (i * (37 + 7 * k) + 11 + 3 * k) * (1 + k) % sizes[k];
  }

  /** Of two rows that are kept, the one listed first also occurs first. */
  lemma {:induction false} DedupInOrder(rows: seq<Row>, i: nat, j: nat) returns (p: nat)
    requires i < j < |Dedup(rows)|
    ensures p < |rows| && rows[p] == Dedup(rows)[i] && Dedup(rows)[j] !in rows[..p + 1]
    decreases |rows|
  {
    var n := |rows| - 1;
    var init := Dedup(rows[..n]);
    if j < |init| {
      p := DedupInOrder(rows[..n], i, j);
      assert rows[..n][..p + 1] == rows[..p + 1];
    } else {
      DedupKeeps(rows[..n]);
      assert init[i] in rows[..n];
      p :| 0 <= p < n && rows[..n][p] == init[i];
      assert rows[..p + 1] <= rows[..n];
    }
  }

  /** Duplicates are dropped in order of first occurrence. */
  method Deduped(rows: seq<Row>) returns (uniq: seq<Row>)
    ensures uniq == Dedup(rows)
  {
    var seen: set<Row> := {};
    uniq := [];
    for k := 0 to |rows|
      invariant forall v :: v in seen <==> v in rows[..k]
      invariant uniq == Dedup(rows[..k])
    {
      assert rows[..k + 1][..k] == rows[..k];
      assert rows[..k + 1] == rows[..k] + [rows[k]];
      if rows[k] !in seen {
        seen := seen + {rows[k]};
        uniq := uniq + [rows[k]];
      }
    }
    assert rows[..|rows|] == rows;
  }

  method SampledBattery(sizes: seq<nat>) returns (uniq: seq<Row>)
    requires AllPositive(sizes)
    ensures uniq == Battery(sizes)
  {
    var sampled := BuildProduct(EdgeSets(sizes));
    var i := 0;
    while i < SAMPLES
      invariant 0 <= i <= SAMPLES
      invariant sampled == ProductLists(EdgeSets(sizes)) + Spreads(sizes)[..i]
    {
      sampled := sampled + [Spread(sizes, i)];
      i := i + 1;
    }
    assert Spreads(sizes)[..SAMPLES] == Spreads(sizes);
    uniq := Deduped(sampled);
  }

  datatype Mode = ExhaustiveProof | Sampled

  function ModeOf(sizes: seq<nat>, threshold: nat): Mode {
    if Total(sizes) <= threshold then ExhaustiveProof else Sampled
  }

  /** The valuations the kernel checks, in order. */
  function Valuations(sizes: seq<nat>, threshold: nat): seq<Row>
    requires AllPositive(sizes)
  {
    if ModeOf(sizes, threshold).ExhaustiveProof? then Product(sizes) else Battery(sizes)
  }

  /** `_input_domain` */
  method InputDomain(sizes: seq<nat>, threshold: nat) returns (valuations: seq<Row>, mode: Mode)
    requires AllPositive(sizes)
    ensures valuations == Valuations(sizes, threshold) && mode == ModeOf(sizes, threshold)
  {
    var total := 1;
    for k := 0 to |sizes|
      invariant total == Total(sizes[..k])
    {
      assert sizes[..k + 1][..k] == sizes[..k];
      total := total * sizes[k];
    }
    assert sizes[..|sizes|] == sizes;
    if total <= threshold {
      valuations := BuildProduct(Ranges(sizes));
      mode := ExhaustiveProof;
    } else {
      valuations := SampledBattery(sizes);
      mode := Sampled;
    }
  }

  // ---------------------------------------------------------------------------
  // The native kernel counts cases in 64 bits and turns an odometer
  // ---------------------------------------------------------------------------

  const UINT64_MAX: nat := 0xFFFF_FFFF_FFFF_FFFF
  const TWO63: nat := 0x8000_0000_0000_0000

  lemma {:induction false} TotalGrows(sizes: seq<nat>, k: nat)
    requires AllPositive(sizes) && k <= |sizes|
    ensures 0 < Total(sizes[..k]) <= Total(sizes)
    decreases |sizes|
  {
    if k == |sizes| {
      assert sizes[..k] == sizes;
      if k > 0 {
        TotalGrows(sizes[..k - 1], k - 1);
        assert sizes[..k - 1][..k - 1] == sizes[..k - 1];
        assert Total(sizes[..k - 1]) * sizes[k - 1] > 0;
      }
    } else {
      var n := |sizes| - 1;
      TotalGrows(sizes[..n], k);
      assert sizes[..n][..k] == sizes[..k];
      assert Total(sizes[..n]) * sizes[n] >= Total(sizes[..n]);
    }
  }

  lemma QuotientBound(total: nat, size: nat, threshold: nat)
    requires size > 0
    ensures total > threshold / size + 1 ==> total * size > threshold
    ensures total <= threshold / size + 1 ==> total * size <= threshold + size
  {
    var q := threshold / size;
    assert q * size <= threshold < q * size + size;
    if total > q + 1 {
      assert total * size >= (q + 2) * size;
      assert (q + 2) * size == q * size + 2 * size;
    } else {
      assert total * size <= (q + 1) * size;
      assert (q + 1) * size == q * size + size;
    }
  }

  /**
    `total_cases`: the product in 64 bits, saturating. It never wraps, it lies within the
    threshold exactly when the true product does, and it is then the true product.
    */
  method TotalCases(sizes: seq<nat>, threshold: nat) returns (r: nat)
    requires AllPositive(sizes) && threshold < TWO63
    requires forall k | 0 <= k < |sizes| :: sizes[k] <= TWO63
    ensures r <= UINT64_MAX
    ensures r <= threshold <==> Total(sizes) <= threshold
    ensures r <= threshold ==> r == Total(sizes)
  {
    var total := 1;
    for k := 0 to |sizes|
      invariant total == Total(sizes[..k])
      invariant k > 0 ==> total <= threshold
      invariant total <= UINT64_MAX
    {
      var size := sizes[k];
      assert sizes[..k + 1][..k] == sizes[..k];
      TotalGrows(sizes, k + 1);
      QuotientBound(total, size, threshold);
      if total > threshold / size + 1 {
        return UINT64_MAX;
      }
      assert total * size <= UINT64_MAX;
      total := total * size;
      if total > threshold {
        return total;
      }
    }
    assert sizes[..|sizes|] == sizes;
    return total;
  }

  /** When every digit from `k` on is at its maximum and digit `k - 1` is not, the turn moves `k - 1`. */
  lemma {:induction false} SuccAt(sizes: seq<nat>, v: Row, k: nat)
    requires InBox(v, sizes) && k <= |v|
    requires forall j | k <= j < |v| :: v[j] + 1 == sizes[j]
    requires k > 0 ==> v[k - 1] + 1 < sizes[k - 1]
    ensures Succ(sizes, v) ==
      if k == 0 then None else Some(v[..k - 1] + [v[k - 1] + 1] + seq(|v| - k, _ => 0))
    decreases |v|
  {
    if v != [] {
      var n := |v| - 1;
      if k == |v| {
        var none: Row := seq(0, _ => 0);
        assert v[..n] + [v[n] + 1] + none == v[..n] + [v[n] + 1];
      } else {
        SuccAt(sizes[..n], v[..n], k);
        if k > 0 {
          var head := v[..k - 1] + [v[k - 1] + 1];
          assert v[..n][..k - 1] == v[..k - 1];
          var z: Row := seq(n - k, _ => 0);
          var z': Row := seq(|v| - k, _ => 0);
          assert z' == z + [0];
          assert head + z + [0] == head + z';
        }
      }
    }
  }

  class Odometer {
    const sizes: seq<nat>
    const cur: array<nat>

    constructor (sizes: seq<nat>)
      ensures this.sizes == sizes && fresh(cur)
      ensures cur.Length == |sizes| && cur[..] == seq(|sizes|, _ => 0)
    {
      this.sizes := sizes;
      this.cur := new nat[|sizes|](_ => 0);
      new;
      assert cur[..] == seq(|sizes|, _ => 0);
    }

    /** Increment in place, last digit fastest; false when the slowest digit wrapped. */
    method Turn() returns (more: bool)
      requires cur.Length == |sizes| && InBox(cur[..], sizes)
      modifies cur
      ensures more ==> Succ(sizes, old(cur[..])) == Some(cur[..])
      ensures !more ==> Succ(sizes, old(cur[..])) == None
    {
      ghost var was := cur[..];
      var k := cur.Length;
      while k > 0
        invariant 0 <= k <= cur.Length
        invariant forall j | 0 <= j < k :: cur[j] == was[j]
        invariant forall j | k <= j < cur.Length :: cur[j] == 0 && was[j] + 1 == sizes[j]
      {
        k := k - 1;
        cur[k] := cur[k] + 1;
        if cur[k] < sizes[k] {
          SuccAt(sizes, was, k + 1);
          assert cur[..] == was[..k] + [was[k] + 1] + seq(|was| - k - 1, _ => 0);
          return true;
        }
        cur[k] := 0;
      }
      SuccAt(sizes, was, 0);
      return false;
    }
  }
}
