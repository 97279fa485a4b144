/** The Code128 (subset B) encoder of code128/code128.go: its static tables, addBlock,
    and New, which lays the start, data, check and stop patterns side by side on a
    canvas, one module of `moduleWidth` pixels per pattern character. */
module Code128 {
  import opened Canvas
  import opened Encoding

  const ModulesPerChar := 11
  /** Index of the Start B pattern. */
  const StartB := 104
  /** Index of the 13-module stop pattern the encoder draws. */
  const Stop2 := 108
  /** Modulus of the check value. */
  const CheckModulus := 103
  /** Number of entries of the `patterns` table. */
  const PatternCount := 109

  /** A pattern is a string of module types: '0' for a space module, '1' for a bar module. */
  predicate IsBinary(s: string) {
    forall j :: 0 <= j < |s| ==> s[j] == '0' || s[j] == '1'
  }

  type SymbolPattern = s: string | |s| == ModulesPerChar && IsBinary(s) witness "11011001100"
  type StopPattern = s: string | |s| == 13 && IsBinary(s) witness "1100011101011"

  /** A value that a data character or the check value can take; it indexes an
      11-module pattern. */
  type SymbolValue = v: nat | v < CheckModulus

  /** An index into the `patterns` table. */
  type PatternIndex = v: nat | v < PatternCount

  type PatternTable = t: seq<string> | |t| == PatternCount witness seq(PatternCount, _ => "")

  // Entries 0..107 of the `patterns` table, in blocks of 12.
  const Patterns0To11: seq<SymbolPattern> := [
      "11011001100", "11001101100", "11001100110", "10010001100", "10010011000", "10001001100",
      "10011001000", "10011000100", "10001100100", "11001001000", "11001000100", "11000100100"
  ]

  const Patterns12To23: seq<SymbolPattern> := [
      "10110011100", "10011011100", "10011001110", "10111001100", "10011101100", "10011100110",
      "11001110010", "11001011100", "11001001110", "11011100100", "11001110100", "11101101110"
  ]

  const Patterns24To35: seq<SymbolPattern> := [
      "11101001100", "11100101100", "11100100110", "11101100100", "11100110100", "11100110010",
      "11011011000", "11011000110", "11000110110", "10100011000", "10001011000", "10001000110"
  ]

  const Patterns36To47: seq<SymbolPattern> := [
      "10110001000", "10001101000", "10001100010", "11010001000", "11000101000", "11000100010",
      "10110111000", "10110001110", "10001101110", "10111011000", "10111000110", "10001110110"
  ]

  const Patterns48To59: seq<SymbolPattern> := [
      "11101110110", "11010001110", "11000101110", "11011101000", "11011100010", "11011101110",
      "11101011000", "11101000110", "11100010110", "11101101000", "11101100010", "11100011010"
  ]

  const Patterns60To71: seq<SymbolPattern> := [
      "11101111010", "11001000010", "11110001010", "10100110000", "10100001100", "10010110000",
      "10010000110", "10000101100", "10000100110", "10110010000", "10110000100", "10011010000"
  ]

  const Patterns72To83: seq<SymbolPattern> := [
      "10011000010", "10000110100", "10000110010", "11000010010", "11001010000", "11110111010",
      "11000010100", "10001111010", "10100111100", "10010111100", "10010011110", "10111100100"
  ]

  const Patterns84To95: seq<SymbolPattern> := [
      "10011110100", "10011110010", "11110100100", "11110010100", "11110010010", "11011011110",
      "11011110110", "11110110110", "10101111000", "10100011110", "10001011110", "10111101000"
  ]

  const Patterns96To107: seq<SymbolPattern> := [
      "10111100010", "11110101000", "11110100010", "10111011110", "10111101110", "11101011110",
      "11110101110", "11010000100", "11010010000", "11010011100", "11000111010", "11010111000"
  ]

  /** Entries 0..107 of the `patterns` table. */
  const SymbolPatterns: seq<SymbolPattern> :=
    Patterns0To11 + Patterns12To23 + Patterns24To35 + Patterns36To47 + Patterns48To59 +
    Patterns60To71 + Patterns72To83 + Patterns84To95 + Patterns96To107

  /** Entry 108 of the `patterns` table. */
  const Stop2Pattern: StopPattern := "1100011101011"

  /** The `patterns` table. */
  const Patterns: PatternTable := SymbolPatterns + [Stop2Pattern]

  /** The value the `symbolsB` table gives a printable ASCII character. Its keys are
      exactly ' ' to '~'; the value is the code point minus 32, except that the table
      as written gives 7 to each of 'g'..'o' and 8 to each of 'q'..'y'. */
  function ValueB(c: char): SymbolValue
    requires ' ' <= c <= '~'
  {
    if 'g' <= c <= 'o' then 7
    else if 'q' <= c <= 'y' then 8
    else c as int - 32
  }

  /** The `symbolsB` table. */
  const SymbolsB: map<char, SymbolValue> := map c | ' ' <= c <= '~' :: ValueB(c)

  /** The tables are well formed: entries 0..107 have 11 modules, entry 108 has 13
      and ends with a bar, every pattern character is '0' or '1', and every symbolsB
      value is below 103, so it indexes an 11-module pattern. */
  lemma TablesWellFormed()
    ensures |Patterns| == 109
    ensures forall i :: 0 <= i < 108 ==> |Patterns[i]| == ModulesPerChar
    ensures |Patterns[Stop2]| == 13 && Patterns[Stop2][12] == '1'
    ensures forall i :: 0 <= i < |Patterns| ==> IsBinary(Patterns[i])
    ensures forall c :: c in SymbolsB ==> SymbolsB[c] < CheckModulus < StartB
  {
    assert Patterns[Stop2] == Stop2Pattern;
  }

  /** The width in modules of one table entry. */
  lemma PatternWidth(v: PatternIndex)
    ensures |Patterns[v]| == if v == Stop2 then 13 else ModulesPerChar
  {
    if v == Stop2 {
      assert Patterns[v] == Stop2Pattern;
    } else {
      assert Patterns[v] == SymbolPatterns[v];
    }
  }

  predicate IsSpace(r: char) {
    r == '0'
  }

  predicate IsBar(r: char) {
    !IsSpace(r)
  }

  /** The module count New plans for n data characters: start, data, check and
      stop symbols of 11 modules each, plus the two extra modules of the stop. */
  function TotalModules(n: nat): (total: nat)
    ensures total >= 3 * ModulesPerChar + 2 && total % ModulesPerChar == 2
  {
    (n + 3) * ModulesPerChar + 2
  }

  /** The interval of module k of a block drawn at `offset` with `mw` pixels per module. */
  function Slice(offset: int, k: int, mw: int): Module {
    Module(offset + k * mw, offset + (k + 1) * mw)
  }

  /** Module k + 1 of a block at `offset` is module k of the block one module further on. */
  lemma SliceShift(offset: int, k: int, mw: int)
    ensures Slice(offset + mw, k, mw) == Slice(offset, k + 1, mw)
  {
    assert (k + 1) * mw == k * mw + mw;
    assert (k + 2) * mw == (k + 1) * mw + mw;
  }

  /** The request for one pattern character drawn at `offset`: its module when the
      character is a bar, nothing for a space. */
  function ModuleRequest(c: char, offset: int, mw: int): seq<Module> {
    if IsBar(c) then [Module(offset, offset + mw)] else []
  }

  /** The intervals addBlock hands to AddModule, in order: the pattern is walked from
      `offset` on, one `mw`-wide module per character. */
  function BlockRequests(pattern: string, offset: int, mw: int): seq<Module>
    decreases |pattern|
  {
    if pattern == [] then []
    else ModuleRequest(pattern[0], offset, mw) + BlockRequests(pattern[1..], offset + mw, mw)
  }

  /** Splitting off character k of what is left of a pattern. */
  lemma BlockRequestsNext(width: int, pattern: string, k: nat, offset: int, mw: int)
    requires k < |pattern|
    ensures Accepted(width, BlockRequests(pattern[k..], offset, mw)) ==
      Accepted(width, ModuleRequest(pattern[k], offset, mw)) +
      Accepted(width, BlockRequests(pattern[k + 1..], offset + mw, mw))
  {
    assert pattern[k..][0] == pattern[k];
    assert pattern[k..][1..] == pattern[k + 1..];
    AcceptedConcat(width, ModuleRequest(pattern[k], offset, mw), BlockRequests(pattern[k + 1..], offset + mw, mw));
  }

  /** AddModule keeps the request of one character exactly when RangeCheck passes it. */
  lemma AcceptedModule(width: int, c: char, offset: int, mw: int)
    ensures Accepted(width, ModuleRequest(c, offset, mw)) ==
      if IsBar(c) && Accepts(width, Module(offset, offset + mw)) then [Module(offset, offset + mw)] else []
  {
    if IsBar(c) {
      assert ModuleRequest(c, offset, mw)[..0] == [];
    }
  }

  /** A slice is requested exactly for each bar position of the pattern. */
  lemma {:induction false} BlockRequestsMember(pattern: string, offset: int, mw: int, m: Module)
    ensures m in BlockRequests(pattern, offset, mw) <==>
      exists k :: 0 <= k < |pattern| && IsBar(pattern[k]) && m == Slice(offset, k, mw)
    decreases |pattern|
  {
    if pattern != [] {
      var rest := pattern[1..];
      var head := ModuleRequest(pattern[0], offset, mw);
      assert BlockRequests(pattern, offset, mw) == head + BlockRequests(rest, offset + mw, mw);
      BlockRequestsMember(rest, offset + mw, mw, m);
      if m in BlockRequests(rest, offset + mw, mw) {
        var j :| 0 <= j < |rest| && IsBar(rest[j]) && m == Slice(offset + mw, j, mw);
        SliceShift(offset, j, mw);
        assert pattern[j + 1] == rest[j];
      }
      if m in head {
        assert m == Slice(offset, 0, mw);
      }
      if exists k :: 0 <= k < |pattern| && IsBar(pattern[k]) && m == Slice(offset, k, mw) {
        var k :| 0 <= k < |pattern| && IsBar(pattern[k]) && m == Slice(offset, k, mw);
        if k > 0 {
          SliceShift(offset, k - 1, mw);
          assert rest[k - 1] == pattern[k];
        }
      }
    }
  }

  /** A pattern requests its first character's module, then the rest one module on. */
  lemma BlockRequestsHead(pattern: string, offset: int, next: int, mw: int)
    requires pattern != [] && next == offset + mw
    ensures BlockRequests(pattern, offset, mw) ==
      ModuleRequest(pattern[0], offset, mw) + BlockRequests(pattern[1..], next, mw)
  {
  }

  /** Blocks drawn one after the other request what the joined pattern requests. */
  lemma {:induction false} BlockRequestsConcat(p: string, q: string, offset: int, mw: int)
    ensures BlockRequests(p + q, offset, mw) ==
      BlockRequests(p, offset, mw) + BlockRequests(q, offset + |p| * mw, mw)
    decreases |p|
  {
    if p == [] {
      assert p + q == q;
    } else {
      var next := offset + mw;
      var head := ModuleRequest(p[0], offset, mw);
      var init := BlockRequests(p[1..], next, mw);
      var tail := BlockRequests(q, offset + |p| * mw, mw);
      var pq := p + q;
      assert pq != [] && pq[0] == p[0] && pq[1..] == p[1..] + q;
      BlockRequestsHead(pq, offset, next, mw);
      BlockRequestsHead(p, offset, next, mw);
      NextModule(offset, |p[1..]|, mw);
      BlockRequestsConcat(p[1..], q, next, mw);
      AppendAssoc(head, init, tail);
    }
  }

  lemma NextModule(offset: int, k: int, mw: int)
    ensures offset + k * mw + mw == offset + (k + 1) * mw
  {
  }

  /** A bar character reaches the canvas exactly when AddModule accepts its module. */
  lemma BarModuleKept(width: int, c: char, offset: int, end: int, mw: int,
                      err: Option<RangeError>, before: seq<Module>, after: seq<Module>)
    requires IsBar(c) && end == offset + mw
    requires err == RangeCheck(width, offset, end)
    requires after == if err == None then before + [Module(offset, end)] else before
    ensures after == before + Accepted(width, ModuleRequest(c, offset, mw))
  {
    AcceptedModule(width, c, offset, mw);
    if err != None {
      AppendEmpty(before);
    }
  }

  /** A space character leaves the canvas as it is. */
  lemma SpaceModuleKept(width: int, c: char, offset: int, mw: int, before: seq<Module>)
    requires !IsBar(c)
    ensures before == before + Accepted(width, ModuleRequest(c, offset, mw))
  {
    AcceptedModule(width, c, offset, mw);
    AppendEmpty(before);
  }

  /** One turn of addBlock's loop moves character k from what is still to come onto
      the canvas. */
  lemma ModuleDrawn(width: int, pattern: string, k: nat, offset: int, end: int, mw: int,
                    before: seq<Module>, after: seq<Module>, goal: seq<Module>)
    requires k < |pattern| && end == offset + mw
    requires before + Accepted(width, BlockRequests(pattern[k..], offset, mw)) == goal
    requires after == before + Accepted(width, ModuleRequest(pattern[k], offset, mw))
    ensures after + Accepted(width, BlockRequests(pattern[k + 1..], end, mw)) == goal
  {
    var kept := Accepted(width, ModuleRequest(pattern[k], offset, mw));
    var rest := Accepted(width, BlockRequests(pattern[k + 1..], end, mw));
    BlockRequestsNext(width, pattern, k, offset, mw);
    ShiftPart(before, Accepted(width, BlockRequests(pattern[k..], offset, mw)), kept, rest, goal);
  }

  /** addBlock: draws the bar modules of `pattern` from `offset` on and returns the
      offset after the pattern. AddModule's errors are discarded, so the canvas gains
      exactly the accepted requests. */
  method AddBlock(bcode: Barcode, pattern: string, offset: int, moduleWidth: int) returns (next: int)
    requires bcode.Valid()
    modifies bcode
    ensures bcode.Valid()
    ensures next == offset + |pattern| * moduleWidth
    ensures bcode.modules ==
      old(bcode.modules) + Accepted(bcode.width, BlockRequests(pattern, offset, moduleWidth))
  {
    ghost var w := bcode.width;
    ghost var goal := old(bcode.modules) + Accepted(w, BlockRequests(pattern, offset, moduleWidth));
    next := offset;
    assert pattern[0..] == pattern;
    for k := 0 to |pattern|
      invariant bcode.Valid() && bcode.width == w
      invariant next == offset + k * moduleWidth
      invariant bcode.modules + Accepted(w, BlockRequests(pattern[k..], next, moduleWidth)) == goal
    {
      var end := next + moduleWidth;
      ghost var before := bcode.modules;
      if IsBar(pattern[k]) {
        var err := bcode.AddModule(next, end);
        BarModuleKept(w, pattern[k], next, end, moduleWidth, err, before, bcode.modules);
      } else {
        SpaceModuleKept(w, pattern[k], next, moduleWidth, before);
      }
      ModuleDrawn(w, pattern, k, next, end, moduleWidth, before, bcode.modules, goal);
      NextModule(offset, k, moduleWidth);
      next := end;
    }
    assert pattern[|pattern|..] == [];
    AppendEmpty(bcode.modules);
  }

  /** The entries of `table` at a list of indices. */
  function PatternsOf(table: PatternTable, syms: seq<PatternIndex>): seq<string> {
    seq(|syms|, k requires 0 <= k < |syms| => table[syms[k]])
  }

  /** Patterns joined end to end. */
  function Flatten(pats: seq<string>): string
    decreases |pats|
  {
    if pats == [] then "" else pats[0] + Flatten(pats[1..])
  }

  /** The patterns from j on, joined: pattern j followed by the ones after it. */
  lemma FlattenFrom(pats: seq<string>, j: nat)
    requires j < |pats|
    ensures Flatten(pats[j..]) == pats[j] + Flatten(pats[j + 1..])
  {
    assert pats[j..][0] == pats[j];
    assert pats[j..][1..] == pats[j + 1..];
  }

  /** What drawing blocks j.. of `pats` one after the other from `offset` leaves on a
      canvas of the given width: each block contributes the requests AddModule
      accepts, and starts where the previous one ends. */
  function DrawnFrom(width: int, pats: seq<string>, j: nat, offset: int, mw: int): seq<Module>
    requires j <= |pats|
    decreases |pats| - j
  {
    if j == |pats| then []
    else
      Accepted(width, BlockRequests(pats[j], offset, mw)) +
      DrawnFrom(width, pats, j + 1, offset + |pats[j]| * mw, mw)
  }

  /** The first of the blocks j.. is drawn at `offset`, the others after it. */
  lemma DrawnFromNext(width: int, pats: seq<string>, j: nat, pattern: string, offset: int, mw: int)
    requires j < |pats| && pats[j] == pattern
    ensures DrawnFrom(width, pats, j, offset, mw) ==
      Accepted(width, BlockRequests(pattern, offset, mw)) +
      DrawnFrom(width, pats, j + 1, offset + |pattern| * mw, mw)
  {
    assert DrawnFrom(width, pats, j, offset, mw) ==
      Accepted(width, BlockRequests(pats[j], offset, mw)) +
      DrawnFrom(width, pats, j + 1, offset + |pats[j]| * mw, mw);
  }

  /** Drawing the blocks one by one leaves what drawing their joined pattern in one
      go would: the accepted requests of the joined pattern. */
  lemma {:induction false} DrawnFromFlatten(width: int, pats: seq<string>, j: nat, offset: int, mw: int)
    requires j <= |pats|
    ensures DrawnFrom(width, pats, j, offset, mw) ==
      Accepted(width, BlockRequests(Flatten(pats[j..]), offset, mw))
    decreases |pats| - j
  {
    if j == |pats| {
      assert pats[j..] == [];
    } else {
      var pattern := pats[j];
      var rest := Flatten(pats[j + 1..]);
      var next := offset + |pattern| * mw;
      DrawnFromFlatten(width, pats, j + 1, next, mw);
      FlattenFrom(pats, j);
      BlockRequestsConcat(pattern, rest, offset, mw);
      AcceptedConcat(width, BlockRequests(pattern, offset, mw), BlockRequests(rest, next, mw));
      DrawnFromNext(width, pats, j, pattern, offset, mw);
    }
  }

  /** Splitting off block j of the canvas still to be drawn. */
  lemma DrawnFromSplit(width: int, pats: seq<string>, j: nat, pattern: string, offset: int, mw: int,
                       before: seq<Module>, goal: seq<Module>)
    requires j < |pats| && pats[j] == pattern
    requires before + DrawnFrom(width, pats, j, offset, mw) == goal
    ensures (before + Accepted(width, BlockRequests(pattern, offset, mw))) +
      DrawnFrom(width, pats, j + 1, offset + |pattern| * mw, mw) == goal
  {
    var block := Accepted(width, BlockRequests(pattern, offset, mw));
    var rest := DrawnFrom(width, pats, j + 1, offset + |pattern| * mw, mw);
    DrawnFromNext(width, pats, j, pattern, offset, mw);
    assert goal == before + (block + rest);
    AppendAssoc(before, block, rest);
  }

  /** addBlock for block j of `pats`, stated against the canvas the whole list is to
      produce: `goal` is what the canvas holds once the remaining blocks are drawn. */
  method DrawBlock(bc: Barcode, ghost pats: seq<string>, j: nat, pattern: string, offset: int,
                   moduleWidth: int, ghost goal: seq<Module>) returns (next: int)
    requires bc.Valid() && j < |pats| && pats[j] == pattern
    requires bc.modules + DrawnFrom(bc.width, pats, j, offset, moduleWidth) == goal
    modifies bc
    ensures bc.Valid()
    ensures bc.modules + DrawnFrom(bc.width, pats, j + 1, next, moduleWidth) == goal
  {
    DrawnFromSplit(bc.width, pats, j, pattern, offset, moduleWidth, bc.modules, goal);
    next := AddBlock(bc, pattern, offset, moduleWidth);
  }

  /** The symbolsB value of a character. Characters without an entry get 0 here;
      New fails on them, so this value is never drawn. */
  function ValueOf(c: char): SymbolValue {
    if c in SymbolsB then SymbolsB[c] else 0
  }

  /** The values of the data characters, in order. */
  function Values(data: string): seq<SymbolValue> {
    seq(|data|, i requires 0 <= i < |data| => ValueOf(data[i]))
  }

  /** The weighted sum New accumulates: each value times its 0-based position. */
  function WeightedSum(vals: seq<nat>): nat
    decreases |vals|
  {
    if vals == [] then 0
    else
      var k := |vals| - 1;
      WeightedSum(vals[..k]) + k * vals[k]
  }

  /** The check value New draws, as the code computes it: the symbol value congruent
      to the weighted sum modulo 103. */
  function CheckValue(vals: seq<nat>): (c: SymbolValue)
    ensures c <= WeightedSum(vals) && (WeightedSum(vals) - c) % CheckModulus == 0
  {
    WeightedSum(vals) % CheckModulus
  }

  /** The pattern indices New draws for `data`, left to right: Start B, one per data
      character, the check value, and the 13-module stop. */
  function Emitted(data: string): seq<PatternIndex>
  {
    seq(|data| + 3, j requires 0 <= j < |data| + 3 =>
      if j == 0 then StartB
      else if j <= |data| then ValueOf(data[j - 1])
      else if j == |data| + 1 then CheckValue(Values(data))
      else Stop2)
  }

  /** The order New emits symbols in: Start B, the value of each data character, the
      check value, then the stop. */
  lemma EmittedShape(data: string)
    ensures |Emitted(data)| == |data| + 3
    ensures Emitted(data)[0] == StartB && Emitted(data)[|data| + 2] == Stop2
    ensures Emitted(data)[|data| + 1] == CheckValue(Values(data))
    ensures forall i :: 0 <= i < |data| ==> Emitted(data)[i + 1] == ValueOf(data[i])
  {
  }

  /** The value of checkDigit after n turns of the data loop. */
  function WeightedPrefix(data: string, n: nat): nat
    requires n <= |data| && EncodableUpTo(SymbolsB, data, n)
  {
    if n == 0 then 0
    else
      assert EncodableUpTo(SymbolsB, data, n - 1) && data[n - 1] in SymbolsB;
      var v: nat := SymbolsB[data[n - 1]];
      var weight: nat := n - 1;
      WeightedPrefix(data, n - 1) + weight * v
  }

  /** One turn of the data loop of New extends the loop state by character i. */
  lemma LoopStep(data: string, i: nat)
    requires i < |data| && EncodableUpTo(SymbolsB, data, i) && data[i] in SymbolsB
    ensures EncodableUpTo(SymbolsB, data, i + 1)
    ensures WeightedPrefix(data, i + 1) == WeightedPrefix(data, i) + i * SymbolsB[data[i]]
  {
  }

  /** After the whole data loop checkDigit is the weighted sum of the data values. */
  lemma {:induction false} WeightedPrefixSum(data: string, n: nat)
    requires n <= |data| && EncodableUpTo(SymbolsB, data, n)
    ensures WeightedPrefix(data, n) == WeightedSum(Values(data)[..n])
  {
    if n > 0 {
      WeightedPrefixSum(data, n - 1);
      assert Values(data)[..n][..n - 1] == Values(data)[..n - 1];
    }
  }

  /** The blocks New draws for `data`: the patterns of Emitted(data), in order. */
  function Blocks(data: string): seq<string> {
    PatternsOf(Patterns, Emitted(data))
  }

  /** The blocks of `data`: Start B, one per data character, the check value, and
      the stop. */
  lemma BlocksShape(table: PatternTable, data: string)
    ensures |PatternsOf(table, Emitted(data))| == |data| + 3
    ensures PatternsOf(table, Emitted(data))[0] == table[StartB]
    ensures PatternsOf(table, Emitted(data))[|data| + 1] == table[CheckValue(Values(data))]
    ensures PatternsOf(table, Emitted(data))[|data| + 2] == table[Stop2]
  {
  }

  lemma DataBlock(table: PatternTable, data: string, i: nat)
    requires i < |data| && data[i] in SymbolsB
    ensures PatternsOf(table, Emitted(data))[i + 1] == table[SymbolsB[data[i]]]
  {
  }

  /** The canvas is complete once no block is left to draw. */
  lemma DrawnAll(width: int, pats: seq<string>, offset: int, mw: int, mods: seq<Module>, goal: seq<Module>)
    requires goal == DrawnFrom(width, pats, 0, 0, mw)
    requires mods + DrawnFrom(width, pats, |pats|, offset, mw) == goal
    ensures mods == Accepted(width, BlockRequests(Flatten(pats), 0, mw))
  {
    AppendEmpty(mods);
    DrawnFromFlatten(width, pats, 0, 0, mw);
    assert pats[0..] == pats;
  }

  /** The body of New with the pattern table as a parameter. */
  method Encode(data: string, width: int, height: int, table: PatternTable) returns (r: Result<Barcode>)
    ensures r.Err? <==> width < TotalModules(|data|) || !Encodable(SymbolsB, data)
    ensures r.Err? ==>
      r.error == if width < TotalModules(|data|) then InsufficientWidth
                 else UnsupportedSymbol(data[FirstUnsupported(SymbolsB, data)])
    ensures r.Ok? ==> fresh(r.value) && r.value.Valid()
    ensures r.Ok? ==> r.value.width == width && r.value.height == height
    ensures r.Ok? ==>
      r.value.modules ==
        Accepted(width, BlockRequests(Flatten(PatternsOf(table, Emitted(data))), 0, width / TotalModules(|data|)))
  {
    var runeNumber := |data|;
    var totalModules := (runeNumber + 3) * ModulesPerChar + 2;
    var moduleWidth := TruncDiv(width, totalModules);
    TruncDivAtLeastOne(width, totalModules);
    if moduleWidth < 1 {
      return Err(InsufficientWidth);
    }
    assert moduleWidth == width / TotalModules(|data|);

    ghost var pats := PatternsOf(table, Emitted(data));
    ghost var goal := DrawnFrom(width, pats, 0, 0, moduleWidth);
    var offset := 0;
    var checkDigit := 0;
    var bc := new Barcode(width, height);

    // draw the start symbol
    assert [] + goal == goal;
    BlocksShape(table, data);
    offset := DrawBlock(bc, pats, 0, table[StartB], offset, moduleWidth, goal);

    // draw the data symbols
    for i := 0 to |data|
      invariant EncodableUpTo(SymbolsB, data, i)
      invariant checkDigit == WeightedPrefix(data, i)
      invariant fresh(bc) && bc.Valid() && bc.width == width && bc.height == height
      invariant bc.modules + DrawnFrom(width, pats, i + 1, offset, moduleWidth) == goal
    {
      var symb := data[i];
      if symb !in SymbolsB {
        FirstUnsupportedAt(SymbolsB, data, i);
        return Err(UnsupportedSymbol(symb));
      }
      var patternNumber := SymbolsB[symb];
      DataBlock(table, data, i);
      offset := DrawBlock(bc, pats, i + 1, table[patternNumber], offset, moduleWidth, goal);
      LoopStep(data, i);
      checkDigit := checkDigit + i * patternNumber;
    }

    // draw the check symbol
    WeightedPrefixSum(data, |data|);
    assert Values(data)[..|data|] == Values(data);
    checkDigit := checkDigit % 103;
    offset := DrawBlock(bc, pats, |data| + 1, table[checkDigit], offset, moduleWidth, goal);

    // draw the stop symbol
    var _ := DrawBlock(bc, pats, |data| + 2, table[Stop2], offset, moduleWidth, goal);
    DrawnAll(width, pats, offset, moduleWidth, bc.modules, goal);
    return Ok(bc);
  }

  /** New: the Code128 barcode of `data` on a `width` x `height` canvas. It fails
      with InsufficientWidth when fewer than one pixel per module is available, and
      otherwise with UnsupportedSymbol at the first character without a symbolsB
      entry. On success the canvas holds the accepted requests of Blocks(data) drawn
      one after the other from offset 0, with `width / TotalModules(|data|)` pixels
      per module. */
  method New(data: string, width: int, height: int) returns (r: Result<Barcode>)
    ensures r.Err? <==> width < TotalModules(|data|) || !Encodable(SymbolsB, data)
    ensures r.Err? ==>
      r.error == if width < TotalModules(|data|) then InsufficientWidth
                 else UnsupportedSymbol(data[FirstUnsupported(SymbolsB, data)])
    ensures r.Ok? ==> fresh(r.value) && r.value.Valid()
    ensures r.Ok? ==> r.value.width == width && r.value.height == height
    ensures r.Ok? ==>
      r.value.modules ==
        Accepted(width, BlockRequests(Flatten(Blocks(data)), 0, width / TotalModules(|data|)))
  {
    r := Encode(data, width, height, Patterns);
  }
}
