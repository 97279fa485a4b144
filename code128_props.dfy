/** What the canvas of a Code128 barcode looks like: the width of the joined pattern,
    the pixel columns New blackens, and the places where the code departs from what
    its authors or the Code 128 standard intend. */
module Code128Properties {
  import opened Canvas
  import opened Encoding
  import opened Code128

  /** Joining two lists of patterns joins their flattenings. */
  lemma {:induction false} FlattenConcat(a: seq<string>, b: seq<string>)
    ensures Flatten(a + b) == Flatten(a) + Flatten(b)
    decreases |a|
  {
    if a == [] {
      assert a + b == b;
    } else {
      assert (a + b)[0] == a[0];
      assert (a + b)[1..] == a[1..] + b;
      FlattenConcat(a[1..], b);
      assert a[0] + (Flatten(a[1..]) + Flatten(b)) == (a[0] + Flatten(a[1..])) + Flatten(b);
    }
  }

  /** Patterns of one common width n join to |pats| * n modules. */
  lemma {:induction false} FlattenLength(pats: seq<string>, n: nat)
    requires forall i :: 0 <= i < |pats| ==> |pats[i]| == n
    ensures |Flatten(pats)| == |pats| * n
    decreases |pats|
  {
    if pats != [] {
      assert forall i :: 0 <= i < |pats| - 1 ==> pats[1..][i] == pats[i + 1];
      FlattenLength(pats[1..], n);
    }
  }

  /** A table whose entries are 11 modules wide except the 13-module entry 108. */
  predicate WellSized(table: PatternTable) {
    forall v :: 0 <= v < PatternCount ==> |table[v]| == if v == Stop2 then 13 else ModulesPerChar
  }

  lemma PatternsWellSized()
    ensures WellSized(Patterns)
  {
    forall v | 0 <= v < PatternCount
      ensures |Patterns[v]| == if v == Stop2 then 13 else ModulesPerChar
    {
      PatternWidth(v);
    }
  }

  /** The blocks of `data` other than the stop are symbol patterns. */
  lemma SymbolBlocks(table: PatternTable, data: string, i: nat)
    requires WellSized(table) && i < |data| + 2
    ensures |PatternsOf(table, Emitted(data))[i]| == ModulesPerChar
  {
    var v := Emitted(data)[i];
    EmittedShape(data);
    if 1 <= i <= |data| {
      assert Emitted(data)[(i - 1) + 1] == ValueOf(data[i - 1]);
    }
    assert v != Stop2;
    assert PatternsOf(table, Emitted(data))[i] == table[v];
  }

  /** The joined blocks of `data` are the symbol blocks followed by the stop pattern. */
  lemma BlocksSplit(table: PatternTable, data: string)
    requires WellSized(table)
    ensures Flatten(PatternsOf(table, Emitted(data))) ==
      Flatten(PatternsOf(table, Emitted(data))[..|data| + 2]) + table[Stop2]
    ensures |Flatten(PatternsOf(table, Emitted(data))[..|data| + 2])| == (|data| + 2) * ModulesPerChar
  {
    var pats := PatternsOf(table, Emitted(data));
    var n := |data| + 2;
    BlocksShape(table, data);
    forall i | 0 <= i < n
      ensures |pats[..n][i]| == ModulesPerChar
    {
      SymbolBlocks(table, data, i);
    }
    FlattenLength(pats[..n], ModulesPerChar);
    assert pats == pats[..n] + [pats[n]];
    FlattenConcat(pats[..n], [pats[n]]);
    assert Flatten([pats[n]]) == pats[n] + Flatten([]);
  }

  /** The joined blocks of New are exactly TotalModules(|data|) modules long, and the
      last of them is the final bar of the stop pattern. */
  lemma BlocksWidth(data: string)
    ensures |Flatten(Blocks(data))| == TotalModules(|data|)
    ensures Flatten(Blocks(data))[TotalModules(|data|) - 1] == '1'
  {
    PatternsWellSized();
    TablesWellFormed();
    BlocksSplit(Patterns, data);
  }

  /** Multiplying by a non-negative width keeps weak order. */
  lemma ScaleMono(a: int, b: int, mw: int)
    requires a <= b && mw >= 0
    ensures a * mw <= b * mw
  {
    assert b * mw - a * mw == (b - a) * mw;
  }

  /** Multiplying by a positive width keeps the order of module indices. */
  lemma ScaleOrder(a: int, b: int, mw: int)
    requires mw >= 1
    ensures a < b <==> a * mw < b * mw
  {
    if a < b {
      assert b * mw - a * mw == (b - a) * mw;
    } else {
      assert a * mw - b * mw == (a - b) * mw;
    }
  }

  /** The pixel columns an addBlock-style drawing from offset 0 blackens: column x is
      black exactly when it lies in the module of a bar character whose right edge is
      left of the last column, since AddModule rejects the others. */
  lemma DrawnColumns(width: int, pattern: string, mw: int, x: int)
    requires mw >= 1
    ensures Covers(Accepted(width, BlockRequests(pattern, 0, mw)), x) <==>
      exists k :: 0 <= k < |pattern| && IsBar(pattern[k]) && k * mw <= x < (k + 1) * mw && (k + 1) * mw < width
  {
    var reqs := BlockRequests(pattern, 0, mw);
    var mods := Accepted(width, reqs);
    if Covers(mods, x) {
      var i :| 0 <= i < |mods| && mods[i].begin <= x < mods[i].end;
      var m := mods[i];
      AcceptedMember(width, reqs, m);
      BlockRequestsMember(pattern, 0, mw, m);
      var k :| 0 <= k < |pattern| && IsBar(pattern[k]) && m == Slice(0, k, mw);
      assert k * mw <= x < (k + 1) * mw && (k + 1) * mw < width;
    }
    if exists k :: 0 <= k < |pattern| && IsBar(pattern[k]) && k * mw <= x < (k + 1) * mw && (k + 1) * mw < width {
      var k :| 0 <= k < |pattern| && IsBar(pattern[k]) && k * mw <= x < (k + 1) * mw && (k + 1) * mw < width;
      var m := Slice(0, k, mw);
      BlockRequestsMember(pattern, 0, mw, m);
      ScaleOrder(k, k + 1, mw);
      AcceptedMember(width, reqs, m);
      var i :| 0 <= i < |mods| && mods[i] == m;
      assert mods[i].begin <= x < mods[i].end;
    }
  }

  /** Every interval of such a drawing lies inside the pattern's span [0, |pattern| * mw)
      and ends before the last column. */
  lemma DrawnWithin(width: int, pattern: string, mw: int, m: Module)
    requires mw >= 1 && m in Accepted(width, BlockRequests(pattern, 0, mw))
    ensures 0 <= m.begin < m.end <= |pattern| * mw && m.end < width
  {
    AcceptedMember(width, BlockRequests(pattern, 0, mw), m);
    BlockRequestsMember(pattern, 0, mw, m);
    var k :| 0 <= k < |pattern| && IsBar(pattern[k]) && m == Slice(0, k, mw);
    ScaleMono(0, k, mw);
    ScaleOrder(k, k + 1, mw);
    ScaleMono(k + 1, |pattern|, mw);
    assert m.begin == k * mw && m.end == (k + 1) * mw;
  }

  /** The pixel width of one module when New succeeds: at least one pixel, and the
      whole code fits in the image. */
  lemma ModuleWidthFits(data: string, width: int)
    requires width >= TotalModules(|data|)
    ensures width / TotalModules(|data|) >= 1
    ensures TotalModules(|data|) * (width / TotalModules(|data|)) <= width
  {
    TruncDivAtLeastOne(width, TotalModules(|data|));
  }

  /** The canvas of a successful New, as the pixel query sees it: column x is black
      exactly when it lies in module k of the joined blocks, k is a bar, and module k
      ends left of the last column. */
  lemma NewColumns(data: string, width: int, x: int)
    requires width >= TotalModules(|data|)
    ensures |Flatten(Blocks(data))| == TotalModules(|data|)
    ensures
      var mw := width / TotalModules(|data|);
      var joined := Flatten(Blocks(data));
      Covers(Accepted(width, BlockRequests(joined, 0, mw)), x) <==>
        exists k :: 0 <= k < TotalModules(|data|) && IsBar(joined[k]) &&
          k * mw <= x < (k + 1) * mw && (k + 1) * mw < width
  {
    ModuleWidthFits(data, width);
    BlocksWidth(data);
    DrawnColumns(width, Flatten(Blocks(data)), width / TotalModules(|data|), x);
  }

  /** Every bar New keeps lies within the TotalModules(|data|) modules from column 0. */
  lemma NewWithin(data: string, width: int, m: Module)
    requires width >= TotalModules(|data|)
    requires m in Accepted(width, BlockRequests(Flatten(Blocks(data)), 0, width / TotalModules(|data|)))
    ensures 0 <= m.begin < m.end <= TotalModules(|data|) * (width / TotalModules(|data|)) <= width
  {
    ModuleWidthFits(data, width);
    BlocksWidth(data);
    DrawnWithin(width, Flatten(Blocks(data)), width / TotalModules(|data|), m);
  }

  /** As written: when the width is an exact multiple of the module count, the stop
      pattern's last bar ends on the image edge, AddModule rejects it, and the last
      column stays white although the pattern asks for a bar there. */
  lemma ExactFitDropsLastBar(data: string, width: int)
    requires width >= TotalModules(|data|) && width % TotalModules(|data|) == 0
    ensures |Flatten(Blocks(data))| == TotalModules(|data|)
    ensures IsBar(Flatten(Blocks(data))[TotalModules(|data|) - 1])
    ensures !Covers(Accepted(width, BlockRequests(Flatten(Blocks(data)), 0, width / TotalModules(|data|))), width - 1)
  {
    var t := TotalModules(|data|);
    var mw := width / t;
    assert width == t * mw;
    BlocksWidth(data);
    NewColumns(data, width, width - 1);
  }

  /** The range check AddModule evidently intends for half-open intervals: an interval
      may end on the image edge. */
  function IntendedRangeCheck(width: int, begin: int, end: int): (e: Option<RangeError>)
    ensures e == None <==> begin < end <= width
  {
    if begin >= width then Some(BeginNotBelowWidth)
    else if end > width then Some(EndNotBelowWidth)
    else if begin >= end then Some(BeginNotBelowEnd)
    else None
  }

  /** With the intended range check every interval New requests is kept, whenever the
      code fits at all. */
  lemma IntendedCheckKeepsAll(data: string, width: int, m: Module)
    requires width >= TotalModules(|data|)
    requires m in BlockRequests(Flatten(Blocks(data)), 0, width / TotalModules(|data|))
    ensures IntendedRangeCheck(width, m.begin, m.end) == None
  {
    var t := TotalModules(|data|);
    var mw := width / t;
    var joined := Flatten(Blocks(data));
    ModuleWidthFits(data, width);
    BlocksWidth(data);
    BlockRequestsMember(joined, 0, mw, m);
    var k :| 0 <= k < |joined| && IsBar(joined[k]) && m == Slice(0, k, mw);
    ScaleOrder(k, k + 1, mw);
    ScaleMono(k + 1, t, mw);
    assert m.begin == k * mw && m.end == (k + 1) * mw;
  }

  /** As written: the check value gives the first data character weight 0, so
      replacing that character never changes the check symbol. */
  lemma {:induction false} CheckIgnoresFirst(vals: seq<nat>, v: nat)
    requires |vals| >= 1
    ensures CheckValue(vals[0 := v]) == CheckValue(vals)
  {
    WeightedSumIgnoresFirst(vals, v);
  }

  lemma {:induction false} WeightedSumIgnoresFirst(vals: seq<nat>, v: nat)
    requires |vals| >= 1
    ensures WeightedSum(vals[0 := v]) == WeightedSum(vals)
    decreases |vals|
  {
    var k := |vals| - 1;
    var changed := vals[0 := v];
    if k == 0 {
      assert changed[..0] == vals[..0];
    } else {
      WeightedSumIgnoresFirst(vals[..k], v);
      assert changed[..k] == vals[..k][0 := v];
    }
  }

  /** The weighted sum of the ISO/IEC 15417 symbol check character: the value of the i-th
      data character (0-based) is weighted by i + 1. */
  function StandardSum(vals: seq<nat>): nat
    decreases |vals|
  {
    if vals == [] then 0
    else
      var k := |vals| - 1;
      StandardSum(vals[..k]) + (k + 1) * vals[k]
  }

  /** The intended check value: the Start B value plus the weighted sum, modulo 103. */
  function StandardCheckValue(vals: seq<nat>): SymbolValue {
    (StartB + StandardSum(vals)) % CheckModulus
  }

  /** Changing the first value moves the standard weighted sum by exactly the change. */
  lemma {:induction false} StandardSumFirst(vals: seq<nat>, v: nat)
    requires |vals| >= 1
    ensures StandardSum(vals[0 := v]) + vals[0] == StandardSum(vals) + v
    decreases |vals|
  {
    var k := |vals| - 1;
    var changed := vals[0 := v];
    if k == 0 {
      assert changed[..0] == vals[..0];
    } else {
      StandardSumFirst(vals[..k], v);
      assert changed[..k] == vals[..k][0 := v];
    }
  }

  /** With the standard weights, replacing the first data value by another symbol value
      always changes the check value. */
  lemma StandardCheckDetectsFirst(vals: seq<nat>, v: nat)
    requires |vals| >= 1 && vals[0] < CheckModulus && v < CheckModulus && v != vals[0]
    ensures StandardCheckValue(vals[0 := v]) != StandardCheckValue(vals)
  {
    var a := StartB + StandardSum(vals[0 := v]);
    var b := StartB + StandardSum(vals);
    StandardSumFirst(vals, v);
    assert a - b == v - vals[0];
  }

  /** As written: the table gives the single quote and 'g' the same value 7, and the
      opening parenthesis and 'q' the same value 8. */
  lemma ValueBCollides()
    ensures ValueB('g') == ValueB('\'') == 7
    ensures ValueB('q') == ValueB('(') == 8
  {
  }

  /** The evidently intended symbolsB value: the code point minus 32. */
  function IntendedValueB(c: char): SymbolValue
    requires ' ' <= c <= '~'
  {
    c as int - 32
  }

  /** The intended values tell all characters apart, and agree with the table outside
      the two runs of typos. */
  lemma IntendedValueBDistinct(c: char, d: char)
    requires ' ' <= c <= '~' && ' ' <= d <= '~'
    ensures IntendedValueB(c) == IntendedValueB(d) <==> c == d
    ensures !('g' <= c <= 'o') && !('q' <= c <= 'y') ==> ValueB(c) == IntendedValueB(c)
  {
  }
}
