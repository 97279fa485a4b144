/** The Code39 encoder of code39/code39.go: the package settings wideRatio and
    totalNarrowPerSymb, the `patterns` map, and New, which draws "*" + data + "*"
    symbol by symbol, each symbol as nine alternating bar and space elements that are
    narrow ('n') or wide ('w'), with one narrow gap after every symbol. */
module Code39 {
  import opened Canvas
  import opened Encoding

  /** Narrow elements per symbol. */
  const NarrowPerSymb := 6
  /** Wide elements per symbol. */
  const WidePerSymb := 3
  /** The smallest narrow element New draws, in pixels. */
  const MinWidth := 1
  /** The wide ratio set by the package init. */
  const DefaultWideRatio := 3

  /** The error of SetWideRatio. */
  datatype RatioError = RatioBelowTwo

  /** The settings that init and SetWideRatio keep: wideRatio >= 2 and
      totalNarrowPerSymb = narrowPerSymb + widePerSymb * wideRatio. */
  predicate Settings(r: int, tnps: int) {
    r >= 2 && tnps == NarrowPerSymb + WidePerSymb * r
  }

  /** The package-level variables wideRatio (narrow elements per wide element) and
      totalNarrowPerSymb (the width of a symbol in narrow elements). */
  class Config {
    var wideRatio: int
    var totalNarrowPerSymb: int

    /** The relation that init and SetWideRatio establish between the two settings. */
    ghost predicate Valid()
      reads this
    {
      Settings(wideRatio, totalNarrowPerSymb)
    }

    /** The package init: wide ratio 3, hence 15 narrow elements per symbol. */
    constructor ()
      ensures Valid()
      ensures wideRatio == DefaultWideRatio && totalNarrowPerSymb == 15
    {
      wideRatio := DefaultWideRatio;
      totalNarrowPerSymb := NarrowPerSymb + WidePerSymb * DefaultWideRatio;
    }

    /** SetWideRatio: a ratio below 2 is refused and changes nothing; otherwise both
        settings are updated together. */
    method SetWideRatio(r: int) returns (err: Option<RatioError>)
      requires Valid()
      modifies this
      ensures Valid()
      ensures err == None <==> r >= 2
      ensures err == None ==> wideRatio == r && totalNarrowPerSymb == NarrowPerSymb + WidePerSymb * r
      ensures err != None ==> wideRatio == old(wideRatio) && totalNarrowPerSymb == old(totalNarrowPerSymb)
    {
      if r < 2 {
        return Some(RatioBelowTwo);
      }
      wideRatio := r;
      totalNarrowPerSymb := NarrowPerSymb + WidePerSymb * wideRatio;
      return None;
    }
  }

  /** Elements k.. of a pattern are each 'n' (narrow) or 'w' (wide). */
  predicate TokensFrom(p: string, k: nat)
    requires k <= |p|
    decreases |p| - k
  {
    k == |p| || ((p[k] == 'n' || p[k] == 'w') && TokensFrom(p, k + 1))
  }

  /** A pattern string: every element is 'n' (narrow) or 'w' (wide). */
  predicate IsTokens(p: string) {
    TokensFrom(p, 0)
  }

  /** A Code 39 symbol: nine elements, three of them wide. */
  predicate IsSymbolPattern(p: string) {
    |p| == NarrowPerSymb + WidePerSymb && WideCount(p, 0) == WidePerSymb
  }

  /** The shape every entry of the `patterns` map has. */
  type SymbolPattern = p: string | IsSymbolPattern(p) && IsTokens(p) witness "nwnnwnwnn"

  // The `patterns` map, in parts: the digits, the letters in four runs, and the rest.
  const Digits: map<char, SymbolPattern> := map[
    '1' := "wnnwnnnnw", '2' := "nnwwnnnnw", '3' := "wnwwnnnnn", '4' := "nnnwwnnnw",
    '5' := "wnnwwnnnn", '6' := "nnwwwnnnn", '7' := "nnnwnnwnw", '8' := "wnnwnnwnn",
    '9' := "nnwwnnwnn", '0' := "nnnwwnwnn"
  ]

  const LettersAToG: map<char, SymbolPattern> := map[
    'A' := "wnnnnwnnw", 'B' := "nnwnnwnnw", 'C' := "wnwnnwnnn", 'D' := "nnnnwwnnw",
    'E' := "wnnnwwnnn", 'F' := "nnwnwwnnn", 'G' := "nnnnnwwnw"
  ]

  const LettersHToM: map<char, SymbolPattern> := map[
    'H' := "wnnnnwwnn", 'I' := "nnwnnwwnn", 'J' := "nnnnwwwnn", 'K' := "wnnnnnnww",
    'L' := "nnwnnnnww", 'M' := "wnwnnnnwn"
  ]

  const LettersNToT: map<char, SymbolPattern> := map[
    'N' := "nnnnwnnww", 'O' := "wnnnwnnwn", 'P' := "nnwnwnnwn", 'Q' := "nnnnnnwww",
    'R' := "wnnnnnwwn", 'S' := "nnwnnnwwn", 'T' := "nnnnwnwwn"
  ]

  const LettersUToZ: map<char, SymbolPattern> := map[
    'U' := "wwnnnnnnw", 'V' := "nwwnnnnnw", 'W' := "wwwnnnnnn", 'X' := "nwnnwnnnw",
    'Y' := "wwnnwnnnn", 'Z' := "nwwnwnnnn"
  ]

  const Punctuation: map<char, SymbolPattern> := map[
    '-' := "nwnnnnwnw", '.' := "wwnnnnwnn", ' ' := "nwwnnnwnn", '*' := "nwnnwnwnn",
    '$' := "nwnwnwnnn", '/' := "nwnwnnnwn", '+' := "nwnnnwnwn", '%' := "nnnwnwnwn"
  ]

  /** The `patterns` map: the 43 Code 39 characters and the start/stop character '*'. */
  const Patterns: map<char, SymbolPattern> := Digits + LettersAToG + LettersHToM + LettersNToT + LettersUToZ + Punctuation

  /** isNarrowModule: only 'n' is narrow; every other element is drawn wide. */
  predicate IsNarrowModule(t: char) {
    t == 'n'
  }

  /** The pixel width of one element. */
  function ElementWidth(t: char, nw: int, ww: int): int {
    if IsNarrowModule(t) then nw else ww
  }

  /** The pixel width of elements k.. of a pattern. */
  function ElementsWidth(p: string, k: nat, nw: int, ww: int): int
    requires k <= |p|
    decreases |p| - k
  {
    if k == |p| then 0 else ElementWidth(p[k], nw, ww) + ElementsWidth(p, k + 1, nw, ww)
  }

  /** The number of wide elements among elements k.. of a pattern. */
  function WideCount(p: string, k: nat): nat
    requires k <= |p|
    decreases |p| - k
  {
    if k == |p| then 0 else (if IsNarrowModule(p[k]) then 0 else 1) + WideCount(p, k + 1)
  }

  /** The request for element k drawn at `offset`: element k is a bar when k is even,
      since every symbol starts with a bar and bars and spaces alternate. */
  function ElementRequest(p: string, k: nat, offset: int, nw: int, ww: int): seq<Module>
    requires k < |p|
  {
    if k % 2 == 0 then [Module(offset, offset + ElementWidth(p[k], nw, ww))] else []
  }

  /** The intervals the inner loop of New hands to AddModule for elements k.. of a
      pattern drawn from `offset`, in order. */
  function ElementRequests(p: string, k: nat, offset: int, nw: int, ww: int): seq<Module>
    requires k <= |p|
    decreases |p| - k
  {
    if k == |p| then []
    else ElementRequest(p, k, offset, nw, ww) + ElementRequests(p, k + 1, offset + ElementWidth(p[k], nw, ww), nw, ww)
  }

  /** Splitting off element k of what is left of a pattern. */
  lemma ElementRequestsNext(width: int, p: string, k: nat, offset: int, next: int, nw: int, ww: int)
    requires k < |p| && next == offset + ElementWidth(p[k], nw, ww)
    ensures Accepted(width, ElementRequests(p, k, offset, nw, ww)) ==
      Accepted(width, ElementRequest(p, k, offset, nw, ww)) + Accepted(width, ElementRequests(p, k + 1, next, nw, ww))
  {
    assert ElementRequests(p, k, offset, nw, ww) ==
      ElementRequest(p, k, offset, nw, ww) + ElementRequests(p, k + 1, next, nw, ww);
    AcceptedConcat(width, ElementRequest(p, k, offset, nw, ww), ElementRequests(p, k + 1, next, nw, ww));
  }

  /** A bar element reaches the canvas exactly when AddModule accepts its interval. */
  lemma BarKept(width: int, p: string, k: nat, offset: int, next: int, nw: int, ww: int,
                err: Option<RangeError>, before: seq<Module>, after: seq<Module>)
    requires k < |p| && k % 2 == 0 && next == offset + ElementWidth(p[k], nw, ww)
    requires err == RangeCheck(width, offset, next)
    requires after == if err == None then before + [Module(offset, next)] else before
    ensures after == before + Accepted(width, ElementRequest(p, k, offset, nw, ww))
  {
    var m := Module(offset, next);
    assert ElementRequest(p, k, offset, nw, ww) == [m];
    assert [m][..0] == [];
    if err != None {
      AppendEmpty(before);
    }
  }

  /** A space element leaves the canvas as it is. */
  lemma SpaceKept(width: int, p: string, k: nat, offset: int, nw: int, ww: int, before: seq<Module>)
    requires k < |p| && k % 2 != 0
    ensures before == before + Accepted(width, ElementRequest(p, k, offset, nw, ww))
  {
    AppendEmpty(before);
  }

  /** Drawing bar k moves it from what is still to come onto the canvas. */
  lemma BarDrawn(width: int, p: string, k: nat, offset: int, next: int, nw: int, ww: int,
                 err: Option<RangeError>, before: seq<Module>, after: seq<Module>, goal: seq<Module>)
    requires k < |p| && k % 2 == 0 && next == offset + ElementWidth(p[k], nw, ww)
    requires before + Accepted(width, ElementRequests(p, k, offset, nw, ww)) == goal
    requires err == RangeCheck(width, offset, next)
    requires after == if err == None then before + [Module(offset, next)] else before
    ensures after + Accepted(width, ElementRequests(p, k + 1, next, nw, ww)) == goal
  {
    ElementStep(width, p, k, offset, next, nw, ww, before, goal);
    BarKept(width, p, k, offset, next, nw, ww, err, before, after);
  }

  /** Skipping space k leaves the canvas as it is. */
  lemma SpaceDrawn(width: int, p: string, k: nat, offset: int, next: int, nw: int, ww: int,
                   before: seq<Module>, goal: seq<Module>)
    requires k < |p| && k % 2 != 0 && next == offset + ElementWidth(p[k], nw, ww)
    requires before + Accepted(width, ElementRequests(p, k, offset, nw, ww)) == goal
    ensures before + Accepted(width, ElementRequests(p, k + 1, next, nw, ww)) == goal
  {
    var kept := Accepted(width, ElementRequest(p, k, offset, nw, ww));
    ElementStep(width, p, k, offset, next, nw, ww, before, goal);
    SpaceKept(width, p, k, offset, nw, ww, before);
    assert before + kept == before;
  }

  /** One turn of the inner loop of New: element k is handed to AddModule, the rest
      of the pattern follows one element further on. */
  lemma ElementStep(width: int, p: string, k: nat, offset: int, next: int, nw: int, ww: int,
                    before: seq<Module>, goal: seq<Module>)
    requires k < |p| && next == offset + ElementWidth(p[k], nw, ww)
    requires before + Accepted(width, ElementRequests(p, k, offset, nw, ww)) == goal
    ensures (before + Accepted(width, ElementRequest(p, k, offset, nw, ww))) +
      Accepted(width, ElementRequests(p, k + 1, next, nw, ww)) == goal
  {
    var kept := Accepted(width, ElementRequest(p, k, offset, nw, ww));
    var rest := Accepted(width, ElementRequests(p, k + 1, next, nw, ww));
    ElementRequestsNext(width, p, k, offset, next, nw, ww);
    ShiftPart(before, Accepted(width, ElementRequests(p, k, offset, nw, ww)), kept, rest, goal);
  }

  /** One turn of the inner loop of New: element k of `pattern` is narrow or wide;
      a bar is handed to AddModule (its error discarded), a space is skipped, and the
      offset moves past the element either way. */
  method DrawElement(bc: Barcode, pattern: string, k: nat, offset: int, narrowWidth: int, wideWidth: int,
                     isBar: bool, ghost goal: seq<Module>) returns (next: int)
    requires bc.Valid() && k < |pattern| && (isBar <==> k % 2 == 0)
    requires bc.modules + Accepted(bc.width, ElementRequests(pattern, k, offset, narrowWidth, wideWidth)) == goal
    modifies bc
    ensures bc.Valid()
    ensures next == offset + ElementWidth(pattern[k], narrowWidth, wideWidth)
    ensures bc.modules + Accepted(bc.width, ElementRequests(pattern, k + 1, next, narrowWidth, wideWidth)) == goal
  {
    var moduleType := pattern[k];
    var curWidth;
    if IsNarrowModule(moduleType) {
      curWidth := narrowWidth;
    } else {
      curWidth := wideWidth;
    }
    next := offset + curWidth;
    if isBar {
      ghost var before := bc.modules;
      var err := bc.AddModule(offset, next);
      BarDrawn(bc.width, pattern, k, offset, next, narrowWidth, wideWidth, err, before, bc.modules, goal);
    } else {
      SpaceDrawn(bc.width, pattern, k, offset, next, narrowWidth, wideWidth, bc.modules, goal);
    }
  }

  /** Bars and spaces alternate: element k + 1 is a bar exactly when element k is not. */
  lemma NextParity(k: nat)
    ensures (k + 1) % 2 == 0 <==> k % 2 != 0
  {
  }

  /** The inner loop of New (one symbol): draws the bars of `pattern` from `offset` on,
      discarding AddModule's errors, and returns the offset after the pattern. */
  method AddSymbol(bc: Barcode, pattern: string, offset: int, narrowWidth: int, wideWidth: int)
    returns (next: int)
    requires bc.Valid()
    modifies bc
    ensures bc.Valid()
    ensures next == offset + ElementsWidth(pattern, 0, narrowWidth, wideWidth)
    ensures bc.modules ==
      old(bc.modules) + Accepted(bc.width, ElementRequests(pattern, 0, offset, narrowWidth, wideWidth))
  {
    ghost var goal := old(bc.modules) + Accepted(bc.width, ElementRequests(pattern, 0, offset, narrowWidth, wideWidth));
    next := offset;
    var isBar := true;
    for k := 0 to |pattern|
      invariant bc.Valid()
      invariant isBar <==> k % 2 == 0
      invariant next + ElementsWidth(pattern, k, narrowWidth, wideWidth) ==
        offset + ElementsWidth(pattern, 0, narrowWidth, wideWidth)
      invariant bc.modules + Accepted(bc.width, ElementRequests(pattern, k, next, narrowWidth, wideWidth)) == goal
    {
      next := DrawElement(bc, pattern, k, next, narrowWidth, wideWidth, isBar, goal);
      NextParity(k);
      isBar := !isBar;
    }
    AppendEmpty(bc.modules);
  }

  /** What drawing symbols j.. of `pats` one after the other from `offset` leaves on a
      canvas of the given width: each symbol contributes the requests AddModule
      accepts, and the next symbol starts one narrow gap after it. */
  function DrawnSymbols(width: int, pats: seq<string>, j: nat, offset: int, nw: int, ww: int): seq<Module>
    requires j <= |pats|
    decreases |pats| - j
  {
    if j == |pats| then []
    else
      Accepted(width, ElementRequests(pats[j], 0, offset, nw, ww)) +
      DrawnSymbols(width, pats, j + 1, offset + ElementsWidth(pats[j], 0, nw, ww) + nw, nw, ww)
  }

  /** The first of the symbols j.. is drawn at `offset`, the others after it. */
  lemma DrawnSymbolsNext(width: int, pats: seq<string>, j: nat, pattern: string, offset: int, next: int, nw: int, ww: int)
    requires j < |pats| && pats[j] == pattern && next == offset + ElementsWidth(pattern, 0, nw, ww) + nw
    ensures DrawnSymbols(width, pats, j, offset, nw, ww) ==
      Accepted(width, ElementRequests(pattern, 0, offset, nw, ww)) + DrawnSymbols(width, pats, j + 1, next, nw, ww)
  {
  }

  /** Splitting off symbol j of the canvas still to be drawn. */
  lemma DrawnSymbolsSplit(width: int, pats: seq<string>, j: nat, pattern: string, offset: int, nw: int, ww: int,
                          before: seq<Module>, goal: seq<Module>)
    requires j < |pats| && pats[j] == pattern
    requires before + DrawnSymbols(width, pats, j, offset, nw, ww) == goal
    ensures (before + Accepted(width, ElementRequests(pattern, 0, offset, nw, ww))) +
      DrawnSymbols(width, pats, j + 1, offset + ElementsWidth(pattern, 0, nw, ww) + nw, nw, ww) == goal
  {
    var symbol := Accepted(width, ElementRequests(pattern, 0, offset, nw, ww));
    var next := offset + ElementsWidth(pattern, 0, nw, ww) + nw;
    var rest := DrawnSymbols(width, pats, j + 1, next, nw, ww);
    DrawnSymbolsNext(width, pats, j, pattern, offset, next, nw, ww);
    ShiftPart(before, DrawnSymbols(width, pats, j, offset, nw, ww), symbol, rest, goal);
  }

  /** Draws symbol j of `pats` at `offset` and returns the offset after its last
      element, where the gap before the next symbol begins. */
  method DrawSymbol(bc: Barcode, ghost pats: seq<string>, j: nat, pattern: string, offset: int,
                    narrowWidth: int, wideWidth: int, ghost goal: seq<Module>) returns (next: int)
    requires bc.Valid() && j < |pats| && pats[j] == pattern
    requires bc.modules + DrawnSymbols(bc.width, pats, j, offset, narrowWidth, wideWidth) == goal
    modifies bc
    ensures bc.Valid()
    ensures bc.modules + DrawnSymbols(bc.width, pats, j + 1, next + narrowWidth, narrowWidth, wideWidth) == goal
  {
    DrawnSymbolsSplit(bc.width, pats, j, pattern, offset, narrowWidth, wideWidth, bc.modules, goal);
    next := AddSymbol(bc, pattern, offset, narrowWidth, wideWidth);
  }

  /** The canvas is complete once no symbol is left to draw. */
  lemma DrawnSymbolsDone(width: int, pats: seq<string>, offset: int, nw: int, ww: int, mods: seq<Module>, goal: seq<Module>)
    requires mods + DrawnSymbols(width, pats, |pats|, offset, nw, ww) == goal
    ensures mods == goal
  {
    AppendEmpty(mods);
  }

  /** The data with the start and stop character '*' around it. */
  function Wrapped(data: string): (s: string)
    ensures |s| == |data| + 2 && s[0] == '*' && s[|s| - 1] == '*'
  {
    "*" + data + "*"
  }

  /** Character i of the data is character i + 1 of the wrapped data. */
  lemma WrappedAt(data: string, i: nat)
    requires i < |data|
    ensures Wrapped(data)[i + 1] == data[i]
  {
  }

  /** The width of n symbols in narrow elements, counting one gap per symbol. */
  function TotalNarrow(n: nat, totalNarrowPerSymb: int): (total: int)
    ensures n >= 1 && totalNarrowPerSymb >= 0 ==> total >= n
  {
    n * (totalNarrowPerSymb + 1)
  }

  /** The first pixel New draws at: half the space left beside totalNarrow pixels,
      rounded down. Only a width below totalNarrow gives a negative dividend, and New
      rejects such a width before it needs the offset. */
  function StartOffset(width: int, totalNarrow: int): (start: int)
    ensures width >= totalNarrow * MinWidth ==>
      0 <= start && width - totalNarrow * MinWidth - 1 <= 2 * start <= width - totalNarrow * MinWidth
    ensures width < totalNarrow * MinWidth ==> start <= 0
  {
    TruncDiv(width - totalNarrow * MinWidth, 2)
  }

  /** The patterns of the characters of `s`; a character without one gets "" here, and
      New fails on it before anything depends on that. */
  function PatternsFor(table: map<char, string>, s: string): seq<string> {
    seq(|s|, i requires 0 <= i < |s| => if s[i] in table then table[s[i]] else "")
  }

  /** Symbol i of the drawing is the pattern of character i. */
  lemma SymbolAt(table: map<char, string>, s: string, i: nat)
    requires i < |s| && s[i] in table
    ensures |PatternsFor(table, s)| == |s| && PatternsFor(table, s)[i] == table[s[i]]
  {
  }

  /** The body of New with the pattern map as a parameter. */
  method Encode(cfg: Config, data: string, width: int, height: int, table: map<char, string>)
    returns (r: Result<Barcode>)
    requires cfg.Valid() && '*' in table
    ensures r.Err? <==> width < TotalNarrow(|data| + 2, cfg.totalNarrowPerSymb) || !Encodable(table, data)
    ensures r.Err? ==>
      r.error == if width < TotalNarrow(|data| + 2, cfg.totalNarrowPerSymb) then InsufficientWidth
                 else UnsupportedSymbol(data[FirstUnsupported(table, data)])
    ensures r.Ok? ==> fresh(r.value) && r.value.Valid()
    ensures r.Ok? ==> r.value.width == width && r.value.height == height
    ensures r.Ok? ==>
      var total := TotalNarrow(|data| + 2, cfg.totalNarrowPerSymb);
      var nw := width / total;
      r.value.modules ==
        DrawnSymbols(width, PatternsFor(table, Wrapped(data)), 0, StartOffset(width, total), nw, nw * cfg.wideRatio)
  {
    WrappedEncodable(table, data);
    var s := Wrapped(data);
    var numRunes := |s|;
    var totalNarrow := TotalNarrow(numRunes, cfg.totalNarrowPerSymb);
    var narrowWidth := TruncDiv(width, totalNarrow);
    var wideWidth := narrowWidth * cfg.wideRatio;
    var barcodeWidth := totalNarrow * MinWidth;
    ghost var total := TotalNarrow(|data| + 2, cfg.totalNarrowPerSymb);
    assert totalNarrow == total;
    TruncDivAtLeastOne(width, totalNarrow);
    if narrowWidth < MinWidth {
      assert width < total;
      return Err(InsufficientWidth);
    }
    assert width >= total;
    assert narrowWidth == width / total;

    var bc := new Barcode(width, height);
    var offset := TruncDiv(width - barcodeWidth, 2);
    ghost var pats := PatternsFor(table, s);
    ghost var goal := DrawnSymbols(width, pats, 0, offset, narrowWidth, wideWidth);
    assert [] + goal == goal;
    for i := 0 to |s|
      invariant EncodableUpTo(table, s, i)
      invariant fresh(bc) && bc.Valid() && bc.width == width && bc.height == height
      invariant bc.modules + DrawnSymbols(width, pats, i, offset, narrowWidth, wideWidth) == goal
    {
      var curRune := s[i];
      if curRune !in table {
        FirstUnsupportedAt(table, s, i);
        WrappedAt(data, FirstUnsupported(table, data));
        return Err(UnsupportedSymbol(curRune));
      }
      EncodableStep(table, s, i);
      var curPattern := table[curRune];
      SymbolAt(table, s, i);
      offset := DrawSymbol(bc, pats, i, curPattern, offset, narrowWidth, wideWidth, goal);
      offset := offset + narrowWidth;
    }
    DrawnSymbolsDone(width, pats, offset, narrowWidth, wideWidth, bc.modules, goal);
    return Ok(bc);
  }

  /** The start and stop character is a key of the map, so the wrapped data is
      encodable exactly when the data is, and the first unsupported character lies in
      the data; a '*' inside the data is accepted. */
  lemma WrappedEncodable(table: map<char, string>, data: string)
    requires '*' in table
    ensures Encodable(table, Wrapped(data)) <==> Encodable(table, data)
    ensures !Encodable(table, data) ==>
      1 <= FirstUnsupported(table, Wrapped(data)) <= |data| &&
      FirstUnsupported(table, Wrapped(data)) == FirstUnsupported(table, data) + 1
  {
    var s := Wrapped(data);
    if Encodable(table, data) {
      forall i | 0 <= i < |s|
        ensures s[i] in table
      {
        if 1 <= i <= |data| {
          WrappedAt(data, i - 1);
        }
      }
    } else {
      var f := FirstUnsupported(table, data);
      WrappedAt(data, f);
      forall j | 0 <= j < f + 1
        ensures s[j] in table
      {
        if j >= 1 {
          WrappedAt(data, j - 1);
        }
      }
      FirstUnsupportedAt(table, s, f + 1);
    }
  }

  /** New: the Code39 barcode of `data` on a `width` x `height` canvas under the
      current settings. It fails with InsufficientWidth when a narrow element would be
      narrower than one pixel, and otherwise with UnsupportedSymbol at the first data
      character without a pattern. On success the canvas holds the accepted requests
      of the symbols of "*" + data + "*" drawn from StartOffset, one narrow gap apart. */
  method New(cfg: Config, data: string, width: int, height: int) returns (r: Result<Barcode>)
    requires cfg.Valid()
    ensures r.Err? <==> width < TotalNarrow(|data| + 2, cfg.totalNarrowPerSymb) || !Encodable(Patterns, data)
    ensures r.Err? ==>
      r.error == if width < TotalNarrow(|data| + 2, cfg.totalNarrowPerSymb) then InsufficientWidth
                 else UnsupportedSymbol(data[FirstUnsupported(Patterns, data)])
    ensures r.Ok? ==> fresh(r.value) && r.value.Valid()
    ensures r.Ok? ==> r.value.width == width && r.value.height == height
    ensures r.Ok? ==>
      var total := TotalNarrow(|data| + 2, cfg.totalNarrowPerSymb);
      var nw := width / total;
      r.value.modules ==
        DrawnSymbols(width, PatternsFor(Patterns, Wrapped(data)), 0, StartOffset(width, total), nw, nw * cfg.wideRatio)
  {
    assert '*' in Punctuation;
    r := Encode(cfg, data, width, height, Patterns);
  }
}
