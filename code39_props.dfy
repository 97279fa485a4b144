/** What the canvas of a Code39 barcode looks like: the shape of the pattern table,
    where each element and each symbol lands, the span of the whole code, and the
    centring of New, which departs from what its authors evidently intend. */
module Code39Properties {
  import opened Canvas
  import opened Encoding
  import opened Code39

  /** The `patterns` map is well formed: '*' is a key, and every pattern is nine
      narrow-or-wide elements of which exactly three are wide. */
  lemma PatternsWellFormed()
    ensures '*' in Patterns && Patterns['*'] == "nwnnwnwnn"
    ensures forall c :: c in Patterns ==> IsSymbolPattern(Patterns[c]) && IsTokens(Patterns[c])
  {
    assert '*' in Punctuation;
  }

  /** Every element of a pattern made of tokens is 'n' or 'w'. */
  lemma {:induction false} TokensAt(p: string, k: nat, i: nat)
    requires k <= i < |p| && TokensFrom(p, k)
    ensures p[i] == 'n' || p[i] == 'w'
    decreases i - k
  {
    if k < i {
      TokensAt(p, k + 1, i);
    }
  }

  /** The pixel width of elements k.. is their narrow count times the narrow width
      plus their wide count times the wide width. */
  lemma {:induction false} ElementsWidthCount(p: string, k: nat, nw: int, ww: int)
    requires k <= |p|
    ensures WideCount(p, k) <= |p| - k
    ensures ElementsWidth(p, k, nw, ww) == (|p| - k - WideCount(p, k)) * nw + WideCount(p, k) * ww
    decreases |p| - k
  {
    if k < |p| {
      ElementsWidthCount(p, k + 1, nw, ww);
      var n := |p| - (k + 1) - WideCount(p, k + 1);
      if IsNarrowModule(p[k]) {
        assert (n + 1) * nw == n * nw + nw;
      }
    }
  }

  /** One symbol with the gap after it advances the offset by totalNarrowPerSymb + 1
      narrow widths, when a wide element is wideRatio narrow ones. */
  lemma SymbolAdvance(p: string, nw: int, r: int)
    requires IsSymbolPattern(p)
    ensures ElementsWidth(p, 0, nw, nw * r) + nw == nw * (NarrowPerSymb + WidePerSymb * r + 1)
  {
    ElementsWidthCount(p, 0, nw, nw * r);
    assert ElementsWidth(p, 0, nw, nw * r) == 6 * nw + 3 * (nw * r);
  }

  /** The width of elements 0..k-1: where element k begins, relative to the symbol. */
  function ElementsBefore(p: string, k: nat, nw: int, ww: int): int
    requires k <= |p|
  {
    if k == 0 then 0 else ElementsBefore(p, k - 1, nw, ww) + ElementWidth(p[k - 1], nw, ww)
  }

  /** The elements before k and the elements from k on make up the whole symbol. */
  lemma {:induction false} ElementsSplit(p: string, k: nat, nw: int, ww: int)
    requires k <= |p|
    ensures ElementsBefore(p, k, nw, ww) + ElementsWidth(p, k, nw, ww) == ElementsWidth(p, 0, nw, ww)
    decreases k
  {
    if k > 0 {
      ElementsSplit(p, k - 1, nw, ww);
    }
  }

  /** The extent of element i of a symbol drawn at `offset`: it begins after the
      widths of all elements before it, bars and spaces alike, and is nw pixels wide
      for 'n' and ww pixels otherwise. */
  function ElementExtent(p: string, i: nat, offset: int, nw: int, ww: int): Module
    requires i < |p|
  {
    var begin := offset + ElementsBefore(p, i, nw, ww);
    Module(begin, begin + ElementWidth(p[i], nw, ww))
  }

  /** m is the extent of a bar among elements k.. of a symbol drawn at `offset`. */
  predicate IsBarExtent(p: string, k: nat, offset: int, nw: int, ww: int, m: Module) {
    exists i :: k <= i < |p| && i % 2 == 0 && m == ElementExtent(p, i, offset, nw, ww)
  }

  /** The bars among elements k.. are element k, when it is a bar, and the bars
      among elements k + 1... */
  lemma BarExtentNext(p: string, k: nat, offset: int, nw: int, ww: int, m: Module)
    requires k < |p|
    ensures IsBarExtent(p, k, offset, nw, ww, m) <==>
      (k % 2 == 0 && m == ElementExtent(p, k, offset, nw, ww)) || IsBarExtent(p, k + 1, offset, nw, ww, m)
  {
    if IsBarExtent(p, k, offset, nw, ww, m) {
      var i :| k <= i < |p| && i % 2 == 0 && m == ElementExtent(p, i, offset, nw, ww);
      if i > k {
        assert IsBarExtent(p, k + 1, offset, nw, ww, m);
      }
    }
    if IsBarExtent(p, k + 1, offset, nw, ww, m) {
      var i :| k + 1 <= i < |p| && i % 2 == 0 && m == ElementExtent(p, i, offset, nw, ww);
      assert IsBarExtent(p, k, offset, nw, ww, m);
    }
  }

  /** Element k, drawn where the elements before it end, requests its extent when it
      is a bar and nothing when it is a space. */
  lemma HeadRequest(p: string, k: nat, offset: int, nw: int, ww: int, m: Module)
    requires k < |p|
    ensures m in ElementRequest(p, k, offset + ElementsBefore(p, k, nw, ww), nw, ww) <==>
      k % 2 == 0 && m == ElementExtent(p, k, offset, nw, ww)
  {
  }

  /** Elements k.. request what element k requests, then what the elements after it
      request one element further on. */
  lemma ElementRequestsUnfold(p: string, k: nat, offset: int, nw: int, ww: int, m: Module)
    requires k < |p|
    ensures m in ElementRequests(p, k, offset + ElementsBefore(p, k, nw, ww), nw, ww) <==>
      m in ElementRequest(p, k, offset + ElementsBefore(p, k, nw, ww), nw, ww) ||
      m in ElementRequests(p, k + 1, offset + ElementsBefore(p, k + 1, nw, ww), nw, ww)
  {
    var here := offset + ElementsBefore(p, k, nw, ww);
    var next := offset + ElementsBefore(p, k + 1, nw, ww);
    ElementsBeforeNext(p, k, nw, ww);
    ElementRequestsHead(p, k, here, next, nw, ww);
    MemberConcat(ElementRequest(p, k, here, nw, ww), ElementRequests(p, k + 1, next, nw, ww), m);
  }

  /** The elements before k + 1 are those before k and element k. */
  lemma ElementsBeforeNext(p: string, k: nat, nw: int, ww: int)
    requires k < |p|
    ensures ElementsBefore(p, k + 1, nw, ww) == ElementsBefore(p, k, nw, ww) + ElementWidth(p[k], nw, ww)
  {
  }

  /** Elements k.. request what element k requests, then what the elements after it
      request from where element k ends. */
  lemma ElementRequestsHead(p: string, k: nat, here: int, next: int, nw: int, ww: int)
    requires k < |p| && next == here + ElementWidth(p[k], nw, ww)
    ensures ElementRequests(p, k, here, nw, ww) ==
      ElementRequest(p, k, here, nw, ww) + ElementRequests(p, k + 1, next, nw, ww)
  {
  }

  /** A module is in a concatenation when it is in either part. */
  lemma MemberConcat(a: seq<Module>, b: seq<Module>, m: Module)
    ensures m in a + b <==> m in a || m in b
  {
  }

  /** The inner loop of New, from element k on, requests exactly the extents of the
      even (bar) elements, and nothing for the odd (space) ones. */
  lemma {:induction false} ElementRequestsFrom(p: string, k: nat, offset: int, nw: int, ww: int, m: Module)
    requires k <= |p|
    ensures m in ElementRequests(p, k, offset + ElementsBefore(p, k, nw, ww), nw, ww) <==>
      IsBarExtent(p, k, offset, nw, ww, m)
    decreases |p| - k
  {
    if k == |p| {
      assert ElementRequests(p, k, offset + ElementsBefore(p, k, nw, ww), nw, ww) == [];
    } else {
      ElementRequestsUnfold(p, k, offset, nw, ww, m);
      HeadRequest(p, k, offset, nw, ww, m);
      ElementRequestsFrom(p, k + 1, offset, nw, ww, m);
      BarExtentNext(p, k, offset, nw, ww, m);
    }
  }

  /** The inner loop of New requests exactly one interval per even (bar) element of
      the symbol, its extent, and none for the odd (space) elements. */
  lemma ElementRequestsMember(p: string, offset: int, nw: int, ww: int, m: Module)
    ensures m in ElementRequests(p, 0, offset, nw, ww) <==>
      exists i :: 0 <= i < |p| && i % 2 == 0 && m == ElementExtent(p, i, offset, nw, ww)
  {
    ElementRequestsFrom(p, 0, offset, nw, ww, m);
  }

  /** With non-negative narrow and wide widths, elements k.. of a pattern are together
      at least 0 pixels wide. */
  lemma {:induction false} ElementsWidthNonNegative(p: string, k: nat, nw: int, ww: int)
    requires k <= |p| && nw >= 0 && ww >= 0
    ensures ElementsWidth(p, k, nw, ww) >= 0
    decreases |p| - k
  {
    if k < |p| {
      ElementsWidthNonNegative(p, k + 1, nw, ww);
    }
  }

  /** Every interval requested for elements k.. lies within their span from `offset`. */
  lemma {:induction false} ElementRequestsWithin(p: string, k: nat, offset: int, nw: int, ww: int, m: Module)
    requires k <= |p| && nw >= 1 && ww >= 1
    requires m in ElementRequests(p, k, offset, nw, ww)
    ensures offset <= m.begin < m.end <= offset + ElementsWidth(p, k, nw, ww)
    decreases |p| - k
  {
    var w := ElementWidth(p[k], nw, ww);
    var head := ElementRequest(p, k, offset, nw, ww);
    var tail := ElementRequests(p, k + 1, offset + w, nw, ww);
    assert ElementRequests(p, k, offset, nw, ww) == head + tail;
    if m in head {
      ElementsWidthNonNegative(p, k + 1, nw, ww);
    } else {
      ElementRequestsWithin(p, k + 1, offset + w, nw, ww, m);
    }
  }

  /** The intervals the loops of New hand to AddModule for symbols j.., in order,
      before AddModule filters them. */
  function SymbolsRequests(pats: seq<string>, j: nat, offset: int, nw: int, ww: int): seq<Module>
    requires j <= |pats|
    decreases |pats| - j
  {
    if j == |pats| then []
    else
      ElementRequests(pats[j], 0, offset, nw, ww) +
      SymbolsRequests(pats, j + 1, offset + ElementsWidth(pats[j], 0, nw, ww) + nw, nw, ww)
  }

  /** Drawing the symbols one by one leaves the requests that AddModule accepts. */
  lemma {:induction false} DrawnSymbolsAccepted(width: int, pats: seq<string>, j: nat, offset: int, nw: int, ww: int)
    requires j <= |pats|
    ensures DrawnSymbols(width, pats, j, offset, nw, ww) == Accepted(width, SymbolsRequests(pats, j, offset, nw, ww))
    decreases |pats| - j
  {
    if j < |pats| {
      var next := offset + ElementsWidth(pats[j], 0, nw, ww) + nw;
      DrawnSymbolsAccepted(width, pats, j + 1, next, nw, ww);
      AcceptedConcat(width, ElementRequests(pats[j], 0, offset, nw, ww), SymbolsRequests(pats, j + 1, next, nw, ww));
    }
  }

  /** The width of one symbol with its gap, in pixels. */
  function SymbolPitch(nw: int, r: int): int {
    nw * (NarrowPerSymb + WidePerSymb * r + 1)
  }

  /** Symbols that all advance the offset by the same pitch. */
  predicate UniformPitch(pats: seq<string>, nw: int, ww: int, pitch: int) {
    forall i :: 0 <= i < |pats| ==> ElementsWidth(pats[i], 0, nw, ww) + nw == pitch
  }

  /** n pitches are one pitch and n - 1 more. */
  lemma PitchStep(n: int, pitch: int)
    requires n >= 1 && pitch >= 0
    ensures n * pitch == pitch + (n - 1) * pitch && (n - 1) * pitch >= 0
  {
  }

  /** Every interval requested for symbols j.. lies between `offset` and the start of
      the final gap, |pats| - j symbol pitches further on. */
  lemma {:induction false} SymbolsRequestsWithin(pats: seq<string>, j: nat, offset: int, nw: int, ww: int,
                                                 pitch: int, m: Module)
    requires j <= |pats| && nw >= 1 && ww >= 1 && UniformPitch(pats, nw, ww, pitch)
    requires m in SymbolsRequests(pats, j, offset, nw, ww)
    ensures offset <= m.begin < m.end <= offset + (|pats| - j) * pitch - nw
    decreases |pats| - j
  {
    var n := |pats| - j;
    var next := offset + ElementsWidth(pats[j], 0, nw, ww) + nw;
    assert next == offset + pitch;
    ElementsWidthNonNegative(pats[j], 0, nw, ww);
    PitchStep(n, pitch);
    assert SymbolsRequests(pats, j, offset, nw, ww) ==
      ElementRequests(pats[j], 0, offset, nw, ww) + SymbolsRequests(pats, j + 1, next, nw, ww);
    if m in ElementRequests(pats[j], 0, offset, nw, ww) {
      ElementRequestsWithin(pats[j], 0, offset, nw, ww, m);
    } else {
      SymbolsRequestsWithin(pats, j + 1, next, nw, ww, pitch, m);
    }
  }

  /** The geometry of a successful New: n symbols of pitch nw * (tnps + 1) pixels
      span totalNarrow * nw pixels, which fit in the width. */
  lemma CodeWidth(n: nat, width: int, nw: int, r: int, tnps: int)
    requires Settings(r, tnps) && n >= 1 && width >= TotalNarrow(n, tnps) && nw == width / TotalNarrow(n, tnps)
    ensures nw >= 1 && nw * r >= 1 && SymbolPitch(nw, r) >= 0
    ensures n * SymbolPitch(nw, r) == TotalNarrow(n, tnps) * nw <= width
  {
    var total := TotalNarrow(n, tnps);
    TruncDivAtLeastOne(width, total);
    assert SymbolPitch(nw, r) == nw * (tnps + 1);
    assert total * nw == n * (tnps + 1) * nw;
    assert total * nw <= width;
  }

  /** The patterns New draws for encodable data all advance the offset by one pitch. */
  lemma WrappedPatterns(data: string, nw: int, r: int)
    requires Encodable(Patterns, data)
    ensures |PatternsFor(Patterns, Wrapped(data))| == |data| + 2
    ensures UniformPitch(PatternsFor(Patterns, Wrapped(data)), nw, nw * r, SymbolPitch(nw, r))
  {
    PatternsWellFormed();
    WrappedEncodable(Patterns, data);
    TablePitch(Patterns, Wrapped(data), nw, r);
  }

  /** The patterns a table of symbol patterns gives an encodable string all advance
      the offset by one pitch. */
  lemma TablePitch(table: map<char, string>, s: string, nw: int, r: int)
    requires Encodable(table, s)
    requires forall c :: c in table ==> IsSymbolPattern(table[c])
    ensures UniformPitch(PatternsFor(table, s), nw, nw * r, SymbolPitch(nw, r))
  {
    var pats := PatternsFor(table, s);
    forall i | 0 <= i < |pats|
      ensures ElementsWidth(pats[i], 0, nw, nw * r) + nw == SymbolPitch(nw, r)
    {
      SymbolAdvance(pats[i], nw, r);
    }
  }

  /** Every bar that symbols drawn from `start` leave on the canvas lies between
      `start` and the start of the final gap, and ends before the last column. */
  lemma DrawnWithin(width: int, pats: seq<string>, start: int, nw: int, ww: int, pitch: int, m: Module)
    requires nw >= 1 && ww >= 1 && UniformPitch(pats, nw, ww, pitch)
    requires m in DrawnSymbols(width, pats, 0, start, nw, ww)
    ensures start <= m.begin < m.end <= start + |pats| * pitch - nw && m.end < width
  {
    var reqs := SymbolsRequests(pats, 0, start, nw, ww);
    DrawnSymbolsAccepted(width, pats, 0, start, nw, ww);
    AcceptedMember(width, reqs, m);
    SymbolsRequestsWithin(pats, 0, start, nw, ww, pitch, m);
  }

  /** The canvas of a successful New under settings wideRatio = r, totalNarrowPerSymb
      = tnps: the start offset is not negative, and every bar lies between it and the
      start of the final gap, totalNarrow narrow widths further on, and ends before
      the last column. */
  lemma NewLayout(data: string, width: int, r: int, tnps: int, m: Module)
    requires Settings(r, tnps)
    requires Encodable(Patterns, data) && width >= TotalNarrow(|data| + 2, tnps)
    requires
      var total := TotalNarrow(|data| + 2, tnps);
      var nw := width / total;
      m in DrawnSymbols(width, PatternsFor(Patterns, Wrapped(data)), 0, StartOffset(width, total), nw, nw * r)
    ensures
      var total := TotalNarrow(|data| + 2, tnps);
      var start := StartOffset(width, total);
      0 <= start <= m.begin < m.end <= start + total * (width / total) - width / total && m.end < width
  {
    var total := TotalNarrow(|data| + 2, tnps);
    var nw := width / total;
    var start := StartOffset(width, total);
    var pats := PatternsFor(Patterns, Wrapped(data));
    CodeWidth(|data| + 2, width, nw, r, tnps);
    WrappedPatterns(data, nw, r);
    DrawnWithin(width, pats, start, nw, nw * r, SymbolPitch(nw, r), m);
  }

  /** As written: whenever a narrow element is two pixels or more, the code is not
      centred. The start offset subtracts the narrow-unit count from the pixel width,
      so the left margin is at least half that count while the code reaches or
      passes the right edge. */
  lemma CentringOverruns(width: int, total: int)
    requires total >= 1 && width >= 2 * total
    ensures StartOffset(width, total) >= total / 2
    ensures StartOffset(width, total) + total * (width / total) >= width
  {
    var nw := width / total;
    var a := width - total * nw;
    assert 0 <= a < total;
    assert nw >= 2;
    assert total * (nw - 1) >= total;
    assert width - total >= 2 * a;
  }

  /** The empty data is drawn as two '*' symbols. */
  lemma EmptyDataPatterns()
    ensures PatternsFor(Patterns, Wrapped("")) == ["nwnnwnwnn", "nwnnwnwnn"]
  {
    PatternsWellFormed();
    StarPatterns(Patterns, "nwnnwnwnn");
  }

  /** Both symbols of the empty data are the pattern of '*'. */
  lemma StarPatterns(table: map<char, string>, star: string)
    requires '*' in table && table['*'] == star
    ensures PatternsFor(table, Wrapped("")) == [star, star]
  {
    var s := Wrapped("");
    assert s == "**";
    var pats := PatternsFor(table, s);
    assert |pats| == 2 && pats[0] == star && pats[1] == star;
  }

  /** Two '*' symbols drawn from pixel 16 with 2-pixel narrow and 6-pixel wide
      elements: the fifth element of the second one is a bar at [60, 66), which
      AddModule rejects on a 64-pixel canvas. */
  lemma StarsDropBar(star: string, pats: seq<string>)
    requires star == "nwnnwnwnn" && pats == [star, star]
    ensures Module(60, 66) in SymbolsRequests(pats, 0, 16, 2, 6)
    ensures Module(60, 66) !in DrawnSymbols(64, pats, 0, 16, 2, 6)
  {
    StarGeometry(star);
    SymbolsRequestsUnfold(pats, 0, 16, 48, 2, 6);
    SymbolsRequestsUnfold(pats, 1, 48, 80, 2, 6);
    var second := ElementRequests(star, 0, 48, 2, 6);
    ElementRequestsMember(star, 48, 2, 6, Module(60, 66));
    assert Module(60, 66) in second;
    DrawnSymbolsAccepted(64, pats, 0, 16, 2, 6);
    AcceptedMember(64, SymbolsRequests(pats, 0, 16, 2, 6), Module(60, 66));
  }

  /** The symbol requests start with those of symbol j, followed by the rest from
      the next offset. */
  lemma SymbolsRequestsUnfold(pats: seq<string>, j: nat, offset: int, next: int, nw: int, ww: int)
    requires j < |pats| && next == offset + ElementsWidth(pats[j], 0, nw, ww) + nw
    ensures SymbolsRequests(pats, j, offset, nw, ww) ==
      ElementRequests(pats[j], 0, offset, nw, ww) + SymbolsRequests(pats, j + 1, next, nw, ww)
  {
  }

  /** The '*' pattern with 2-pixel narrow and 6-pixel wide elements is 30 pixels
      wide, and its fifth element starts 12 pixels in. */
  lemma StarGeometry(star: string)
    requires star == "nwnnwnwnn"
    ensures ElementsWidth(star, 0, 2, 6) == 30
    ensures ElementsBefore(star, 4, 2, 6) == 12
    ensures ElementExtent(star, 4, 48, 2, 6) == Module(60, 66)
  {
    ElementsWidthCount(star, 0, 2, 6);
    assert star[0] == 'n' && star[1] == 'w' && star[2] == 'n' && star[3] == 'n';
    assert ElementsBefore(star, 1, 2, 6) == 2;
    assert ElementsBefore(star, 2, 2, 6) == 8;
    assert ElementsBefore(star, 3, 2, 6) == 10;
    assert star[4] == 'w';
    assert WideCount(star, 9) == 0;
    assert WideCount(star, 7) == 0;
    assert WideCount(star, 5) == 1;
    assert WideCount(star, 3) == 2;
    assert WideCount(star, 1) == 3;
  }

  /** As written, a concrete case: the empty data under the default settings on a
      64-pixel canvas. Each '*' is 32 pixels wide, the code starts at pixel 16, and
      the bar of the stop character at [60, 66) runs past the edge and is dropped. */
  lemma StopBarDropped()
    ensures
      var pats := PatternsFor(Patterns, Wrapped(""));
      Module(60, 66) in SymbolsRequests(pats, 0, StartOffset(64, TotalNarrow(2, 15)), 2, 6) &&
      Module(60, 66) !in DrawnSymbols(64, pats, 0, StartOffset(64, TotalNarrow(2, 15)), 2, 6)
  {
    assert StartOffset(64, TotalNarrow(2, 15)) == 16;
    EmptyDataPatterns();
    StarsDropBar("nwnnwnwnn", PatternsFor(Patterns, Wrapped("")));
  }

  /** The evidently intended start offset: half the pixels left beside the code. */
  function IntendedStartOffset(width: int, total: int): (start: int)
    requires total >= 1
    ensures width >= total ==>
      0 <= start && start <= width - (start + total * (width / total)) <= start + 1
  {
    (width - total * (width / total)) / 2
  }

  /** Symbols that fit between `start` and the right edge reach the canvas whole. */
  lemma DrawnAllKept(width: int, pats: seq<string>, start: int, nw: int, ww: int, pitch: int)
    requires nw >= 1 && ww >= 1 && UniformPitch(pats, nw, ww, pitch)
    requires start + |pats| * pitch <= width
    ensures DrawnSymbols(width, pats, 0, start, nw, ww) == SymbolsRequests(pats, 0, start, nw, ww)
  {
    var reqs := SymbolsRequests(pats, 0, start, nw, ww);
    forall i | 0 <= i < |reqs|
      ensures Accepts(width, reqs[i])
    {
      SymbolsRequestsWithin(pats, 0, start, nw, ww, pitch, reqs[i]);
    }
    AcceptedAll(width, reqs);
    DrawnSymbolsAccepted(width, pats, 0, start, nw, ww);
  }

  /** With the intended start offset the code is centred and every bar New requests
      stays on the canvas: none is dropped. */
  lemma IntendedLayoutKeepsAll(data: string, width: int, r: int, tnps: int)
    requires Settings(r, tnps)
    requires Encodable(Patterns, data) && width >= TotalNarrow(|data| + 2, tnps)
    ensures
      var total := TotalNarrow(|data| + 2, tnps);
      var nw := width / total;
      var start := IntendedStartOffset(width, total);
      var pats := PatternsFor(Patterns, Wrapped(data));
      DrawnSymbols(width, pats, 0, start, nw, nw * r) == SymbolsRequests(pats, 0, start, nw, nw * r)
  {
    var total := TotalNarrow(|data| + 2, tnps);
    var nw := width / total;
    var start := IntendedStartOffset(width, total);
    var pats := PatternsFor(Patterns, Wrapped(data));
    CodeWidth(|data| + 2, width, nw, r, tnps);
    WrappedPatterns(data, nw, r);
    DrawnAllKept(width, pats, start, nw, nw * r, SymbolPitch(nw, r));
  }
}
