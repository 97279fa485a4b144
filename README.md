# barcode — a Dafny model of the canvas and the Code128 and Code39 encoders

The Go package `barcode` draws one-dimensional barcodes as images. The model covers three parts of it.

- **The canvas** (`barcode.go`). An image of fixed size whose black pixels are whole columns. Each black column is covered by at least one of a list of half-open intervals called modules; every other column is white.
  - `AddModule` validates an interval against the image width and appends it.
  - `At` reports the colour of a pixel.
  - `Bounds` reports the image rectangle.
- **The Code128 encoder** (`code128/code128.go`). It draws the subset B start pattern, one pattern per data character, a check pattern and the 13-module stop pattern. All of them are drawn side by side from column 0, with one module of `width / totalModules` pixels per pattern character.
- **The Code39 encoder** (`code39/code39.go`). It wraps the data in the start/stop character `*` and draws every symbol as nine alternating bar and space elements. Each element is narrow or wide, and a narrow gap follows every symbol. The drawing starts at an offset that is meant to centre the code. The package-level settings `wideRatio` and `totalNarrowPerSymb` are a `Config` object that `init` and `SetWideRatio` update.

## How it is modelled

The canvas is the class `Canvas.Barcode`, whose `modules` field is a `seq<Module>` that `AddModule` extends. Its invariant `Valid()` says that every stored interval passed `AddModule`'s range check. The pure function `Canvas.Accepted(width, reqs)` describes what survives when a list of requests is handed to `AddModule` one by one with the errors discarded, as both encoders do.

Each encoder is a method returning `Result<Barcode>`:

- `InsufficientWidth` when fewer than one pixel per module or narrow element is available.
- `UnsupportedSymbol(c)` at the first character without a table entry.
- `Ok` with a fresh canvas otherwise.

On success the method states the whole canvas. It equals the accepted part of a request list that a specification function computes from the input:

- For Code128 this is `BlockRequests` of the joined patterns of `Emitted(data)`.
- For Code39 it is `DrawnSymbols` of the patterns of `"*" + data + "*"`.

The loops of `addBlock` and of Code39's `New` are `for` loops. Each carries the invariant "what is on the canvas, followed by what the rest of the loop will add, is the final canvas".

Each encoder's body takes its pattern table as a parameter (`Code128.Encode`, `Code39.Encode`). The `New` methods call it with the table literal.

Further lemmas derive the following from these specifications:

- The columns a Code128 barcode blackens.
- The span a Code39 barcode occupies.
- The shape of the tables.
- The findings below.

The Go integer division truncates toward zero. It is `Encoding.TruncDiv`, which differs from Dafny's `/` only for a negative dividend. In both encoders that can happen only in `width / total` with a negative width (code128/code128.go:30, code39/code39.go:26). There Go gives 0 when -total < width < 0 and a negative quotient otherwise, while Dafny's `/` gives a negative quotient in both cases. Either way the quotient is below 1, so the width test fails and nothing observable changes. The Code39 start offset (code39/code39.go:36) is computed only after the width test has passed (lines 30-32), so its dividend is never negative: `Code39.StartOffset` and `Code39Properties.NewLayout` state that the offset is then at least 0.

## Model

| member | source | states |
|---|---|---|
| Encoding.TruncDiv | code39/code39.go:36 | Go's truncating division by a positive divisor: equal to Euclidean division for a non-negative dividend, not positive for a negative one |
| Encoding.TruncDivAtLeastOne | code128/code128.go:30-33 | the quotient width / total is at least 1 exactly when width >= total, so the width test of both encoders fails exactly when the width is below the unit count |
| Encoding.Encodable | code128/code128.go:45-48 | defines that every character of a string is a key of a lookup table (symbolsB for Code128, the pattern map for Code39) |
| Encoding.EncodableUpTo | code39/code39.go:37-42 | defines that the first n characters are table keys: the loop state after n successful lookups |
| Encoding.FirstUnsupported | code128/code128.go:44-48 | the first position whose character has no table entry, with every earlier character present; shared by the data loops of both encoders |
| Encoding.FirstUnsupportedAt | code39/code39.go:37-42 | a loop that looks each character up and gives up at the first miss stops exactly at FirstUnsupported, and only when the string is not encodable |
| Encoding.EncodableStep | code39/code39.go:39-42 | a character with a table entry extends the prefix of supported characters by one |
| Canvas.RangeCheck | barcode.go:21-30 | AddModule's validation, in its order: no error exactly when begin < end < width; BeginNotBelowWidth exactly when begin >= width; EndNotBelowWidth exactly when begin < width <= end |
| Canvas.Accepts | barcode.go:21-30 | defines that AddModule accepts an interval: RangeCheck reports no error |
| Canvas.AllAccepted | barcode.go:31 | defines the canvas invariant: every stored interval passed AddModule's range check |
| Canvas.Accepted | barcode.go:21-34 | defines what a run of AddModule calls leaves on the canvas: the requests that pass the range check, in order; refused ones vanish, since both encoders discard AddModule's error (code128/code128.go:75, code39/code39.go:51) |
| Canvas.AcceptedValid | barcode.go:21-34 | what survives a run of AddModule calls is no longer than the requests and every survivor passes the range check |
| Canvas.AcceptedMember | barcode.go:21-34 | an interval survives exactly when it was requested and passes the range check |
| Canvas.AcceptedConcat | barcode.go:31 | handing two request lists to AddModule one after the other keeps what each keeps, in order |
| Canvas.AppendEmpty | barcode.go:31 | proof helper: appending nothing leaves the module list unchanged |
| Canvas.AppendAssoc | barcode.go:31 | proof helper: appending to the module list is associative |
| Canvas.ShiftPart | barcode.go:31 | proof helper: moving the first part of the remaining requests onto the canvas keeps canvas plus remainder equal to the goal |
| Canvas.AcceptedAll | barcode.go:21-31 | requests that all pass the range check reach the canvas unchanged |
| Canvas.Covers | barcode.go:48-49 | defines that column x lies in some stored interval [begin, end) |
| Canvas.ColorOf | barcode.go:47-54 | defines the colour At reports for column x: black when Covers holds, white otherwise |
| Canvas.CoversAppend | barcode.go:31 | appending an interval blackens exactly its own columns and leaves every other column as it was |
| Canvas.CoversMonotone | barcode.go:47-54 | adding intervals never turns a black column white |
| Canvas.ImageRect | barcode.go:43 | the rectangle image.Rect builds: its corners are the given coordinates, swapped where needed so that min <= max |
| Canvas.Barcode.Valid | barcode.go:15-18 | defines the canvas invariant: AllAccepted holds of the stored intervals |
| Canvas.Barcode.constructor | barcode.go:10-12 | a new canvas has the given size and no intervals |
| Canvas.Barcode.AddModule | barcode.go:21-34 | returns the range-check result; appends [begin, end) exactly when it passes, otherwise changes nothing; keeps Valid |
| Canvas.Barcode.At | barcode.go:47-54 | the colour is black exactly when some stored interval contains x; y is ignored |
| Canvas.Barcode.Bounds | barcode.go:42-44 | the rectangle from (0, 0) to (width, height) for a non-negative size, and always min <= max |
| Canvas.ScenarioAt | barcode_test.go:8-28 | with bars [0,26) and [51,78) on a 100x100 canvas, (0,0), (0,5) and (60,1000) are black and (26,5) and (1000,1000) are white |
| Canvas.ScenarioAddModule | barcode_test.go:30-46 | on a 100-wide canvas [10,20) is accepted, [99,102) is refused for its end, and [66,55) is refused as reversed |
| Canvas.ScenarioBounds | barcode_test.go:48-54 | the bounds of a 100x100 canvas are Rect(0, 0, 100, 100) |
| Code128.IsBinary | code128/code128.go:189-299 | defines a pattern string: every character is '0' or '1' |
| Code128.ValueB | code128/code128.go:91-187 | defines the symbolsB map on ' '..'~' as written: the code point minus 32, except that 'g'..'o' map to 7 and 'q'..'y' to 8 |
| Code128.TablesWellFormed | code128/code128.go:89-299 | the table has 109 patterns; entries 0..107 have 11 modules; entry 108 has 13 and ends with a bar; all are binary; every symbolsB value is below 103 and so indexes an 11-module pattern |
| Code128.PatternWidth | code128/code128.go:189-299 | each table entry is 11 modules wide, except entry 108, which is 13 |
| Code128.IsSpace | code128/code128.go:64-66 | defines a space module as the pattern character '0' |
| Code128.IsBar | code128/code128.go:68-70 | defines a bar module as any pattern character other than '0' |
| Code128.TotalModules | code128/code128.go:29 | the module count New plans for n data characters; it is at least 35 and leaves remainder 2 modulo 11, the two extra modules of the stop |
| Code128.BlockRequests | code128/code128.go:72-80 | defines the AddModule calls addBlock makes: for each bar character k of the pattern the interval [offset + k·mw, offset + (k+1)·mw), in order |
| Code128.Slice | code128/code128.go:73-77 | defines the interval of module k of a block drawn at offset: [offset + k·mw, offset + (k+1)·mw) |
| Code128.ModuleRequest | code128/code128.go:74-75 | defines the AddModule call one pattern character causes: its module interval for a bar, nothing for a space |
| Code128.SliceShift | code128/code128.go:77 | module k + 1 of a block is module k of the block one module further on |
| Code128.BlockRequestsNext | code128/code128.go:73-78 | one turn of addBlock's loop: the character's request, then the rest of the pattern one module on |
| Code128.NextModule | code128/code128.go:77 | proof helper: advancing the offset by one module width moves from module k to module k + 1 |
| Code128.AcceptedModule | code128/code128.go:74-76 | a character's module reaches the canvas exactly when it is a bar and passes the range check |
| Code128.BlockRequestsMember | code128/code128.go:72-80 | addBlock requests the slice [offset + k*mw, offset + (k+1)*mw) exactly for each bar position k of the pattern |
| Code128.BlockRequestsHead | code128/code128.go:73-78 | a pattern requests its first character's module, then the rest of the pattern one module on |
| Code128.BlockRequestsConcat | code128/code128.go:72-80 | drawing two patterns one after the other requests what drawing the joined pattern requests |
| Code128.BarModuleKept | code128/code128.go:74-76 | a bar character's module reaches the canvas exactly when AddModule accepts it |
| Code128.SpaceModuleKept | code128/code128.go:74 | a space character leaves the canvas as it is |
| Code128.ModuleDrawn | code128/code128.go:73-78 | one turn of addBlock's loop keeps "canvas followed by the rest of the pattern is the final canvas" |
| Code128.AddBlock | code128/code128.go:72-80 | returns offset + len(pattern) * moduleWidth; the canvas gains exactly the accepted requests of the pattern; keeps Valid |
| Code128.PatternsOf | code128/code128.go:41-59 | defines the patterns New looks up for a list of pattern indices, in order |
| Code128.Flatten | code128/code128.go:41-59 | defines the patterns of consecutive addBlock calls joined end to end |
| Code128.DrawnFrom | code128/code128.go:41-59 | defines what New's addBlock calls from block j on add to the canvas: each block's accepted requests, the next block starting |pattern|·mw pixels later |
| Code128.FlattenFrom | code128/code128.go:41-59 | the patterns from j on, joined, are pattern j followed by the later ones joined |
| Code128.DrawnFromNext | code128/code128.go:41-59 | the first remaining block is drawn at the offset, the others after it |
| Code128.DrawnFromFlatten | code128/code128.go:41-59 | drawing blocks one after the other leaves the accepted requests of their joined pattern |
| Code128.DrawnFromSplit | code128/code128.go:41-59 | drawing block j moves it from what is still to come onto the canvas |
| Code128.DrawBlock | code128/code128.go:41-59 | one addBlock call keeps "canvas followed by what the remaining blocks add is the final canvas" |
| Code128.ValueOf | code128/code128.go:45 | defines a character's symbolsB value, 0 for a character without an entry (New fails on those before drawing) |
| Code128.Values | code128/code128.go:44-45 | defines the symbolsB values of the data characters, in order |
| Code128.WeightedSum | code128/code128.go:51 | defines checkDigit's sum as written: each data value times its 0-based position |
| Code128.CheckValue | code128/code128.go:55 | the check value is a symbol value below 103 that is congruent to the weighted sum modulo 103 |
| Code128.Emitted | code128/code128.go:40-59 | defines the pattern indices New draws, left to right: Start B, the symbolsB value of each data character, the check value, the stop |
| Code128.EmittedShape | code128/code128.go:40-59 | New draws Start B, the value of each data character in order, the check value, then pattern 108 |
| Code128.WeightedPrefix | code128/code128.go:44-52 | defines checkDigit after n turns of the data loop: the sum of i·value for i < n |
| Code128.LoopStep | code128/code128.go:44-52 | one turn of the data loop adds i times the character's value to checkDigit |
| Code128.WeightedPrefixSum | code128/code128.go:44-55 | after the data loop checkDigit is the sum of each value times its 0-based position |
| Code128.Blocks | code128/code128.go:41-59 | defines the patterns New draws for the data, in order: those of Emitted(data) in the package table |
| Code128.BlocksShape | code128/code128.go:40-59 | the drawn blocks are the Start B pattern, one per data character, the check pattern and pattern 108 |
| Code128.DataBlock | code128/code128.go:45-49 | the block of data character i is the pattern its symbolsB value indexes |
| Code128.DrawnAll | code128/code128.go:40-61 | once every block is drawn the canvas holds the accepted requests of the joined blocks from column 0 |
| Code128.Encode | code128/code128.go:24-62 | error exactly when width < totalModules or some character has no symbolsB entry, with InsufficientWidth first and otherwise the first unsupported character; on success a fresh valid canvas of the given size holding the accepted requests of the joined blocks at width / totalModules pixels per module |
| Code128.New | code128/code128.go:24-62 | the same as Encode, with the package's pattern table |
| Code128Properties.FlattenConcat | code128/code128.go:41-59 | joining two lists of patterns joins their joined forms |
| Code128Properties.FlattenLength | code128/code128.go:26-29 | patterns of one common width n join to a count times n modules |
| Code128Properties.WellSized | code128/code128.go:189-299 | defines the table shape: 11 modules per entry except 13 for entry 108 |
| Code128Properties.PatternsWellSized | code128/code128.go:189-299 | the package table has 11-module entries and the 13-module entry 108 |
| Code128Properties.SymbolBlocks | code128/code128.go:26-29 | every drawn block other than the stop is 11 modules wide |
| Code128Properties.BlocksSplit | code128/code128.go:26-29 | the joined blocks are (n + 2) * 11 modules of symbols followed by the stop pattern |
| Code128Properties.BlocksWidth | code128/code128.go:29 | the joined blocks are exactly totalModules long and their last module is a bar |
| Code128Properties.ScaleMono | code128/code128.go:77 | proof helper: multiplying module indices by a non-negative width keeps their order |
| Code128Properties.ScaleOrder | code128/code128.go:77 | proof helper: multiplying module indices by a positive width keeps their strict order, both ways |
| Code128Properties.DrawnColumns | code128/code128.go:72-80 | after drawing a pattern from column 0, column x is black exactly when it lies in the module of a bar character whose right edge is left of the last column |
| Code128Properties.DrawnWithin | code128/code128.go:72-80 | every kept module lies inside the pattern's span and ends before the last column |
| Code128Properties.ModuleWidthFits | code128/code128.go:29-33 | when New succeeds a module is at least one pixel and the whole code fits in the width |
| Code128Properties.NewColumns | code128/code128.go:24-62 | the pixel view of a successful New: column x is black exactly when it lies in a bar module k of the joined blocks and module k ends left of the last column |
| Code128Properties.NewWithin | code128/code128.go:24-62 | every kept module of a successful New lies within totalModules * moduleWidth <= width pixels from column 0 |
| Code128Properties.ExactFitDropsLastBar | barcode.go:25-27 | as written: when the width is a multiple of totalModules, the last module is a bar, yet the last column stays white |
| Code128Properties.IntendedRangeCheck | barcode.go:21-30 | the intended check for half-open intervals: accepted exactly when begin < end <= width |
| Code128Properties.IntendedCheckKeepsAll | barcode.go:25-27 | under the intended check every module a successful New requests is kept |
| Code128Properties.CheckIgnoresFirst | code128/code128.go:51-55 | as written: replacing the first data value never changes the check value |
| Code128Properties.WeightedSumIgnoresFirst | code128/code128.go:51 | the first value's weight is 0, so the weighted sum does not depend on it |
| Code128Properties.StandardSum | code128/code128.go:51 | defines the corrected weighted sum: each data value times its 1-based position |
| Code128Properties.StandardSumFirst | code128/code128.go:51 | with weights i + 1, changing the first value changes the sum by exactly the difference |
| Code128Properties.StandardCheckValue | code128/code128.go:51-55 | defines the corrected check value: Start B's 104 plus each data value times its 1-based position, modulo 103 |
| Code128Properties.StandardCheckDetectsFirst | code128/code128.go:51-55 | with the start value added and weights i + 1, replacing the first value by a different symbol value always changes the check value |
| Code128Properties.ValueBCollides | code128/code128.go:163-181 | as written: 'g' and the single quote both map to 7; 'q' and '(' both map to 8 |
| Code128Properties.IntendedValueB | code128/code128.go:91-186 | defines the intended value of a printable character: its code point minus 32 |
| Code128Properties.IntendedValueBDistinct | code128/code128.go:91-186 | intended values tell all characters apart, and agree with the table outside 'g'..'o' and 'q'..'y' |
| Code39.Settings | code39/code39.go:84-92 | defines the relation init and SetWideRatio keep: wideRatio >= 2 and totalNarrowPerSymb = 6 + 3·wideRatio |
| Code39.Config.Valid | code39/code39.go:66-70 | defines the Config invariant: Settings holds of the two package variables |
| Code39.Config.constructor | code39/code39.go:89-92 | init sets wideRatio 3 and totalNarrowPerSymb 15 and establishes the settings invariant |
| Code39.Config.SetWideRatio | code39/code39.go:80-87 | a ratio below 2 is refused and changes nothing; otherwise wideRatio = r and totalNarrowPerSymb = 6 + 3r |
| Code39.TokensFrom | code39/code39.go:94-139 | defines that elements k.. of a pattern are each 'n' or 'w' |
| Code39.IsTokens | code39/code39.go:94-139 | defines a pattern string: every element is 'n' or 'w' |
| Code39.IsSymbolPattern | code39/code39.go:61-64 | defines a Code 39 symbol: nine elements, three of them wide |
| Code39.IsNarrowModule | code39/code39.go:72-77 | defines a narrow element as the pattern character 'n' |
| Code39.ElementWidth | code39/code39.go:44-49 | defines an element's pixel width: the narrow width for 'n', the wide width for anything else |
| Code39.ElementsWidth | code39/code39.go:43-55 | defines how far the element loop advances the offset over elements k..: the sum of their widths |
| Code39.WideCount | code39/code39.go:45-49 | defines the number of wide (non-'n') elements among elements k.. |
| Code39.ElementRequest | code39/code39.go:50-52 | defines the AddModule call of element k: its interval when k is even (isBar is true), nothing otherwise |
| Code39.ElementRequests | code39/code39.go:43-55 | defines the AddModule calls of the element loop: elements k.. laid end to end from the offset, with an interval for each element at an even position (a bar) and none for the spaces between |
| Code39.ElementRequestsNext | code39/code39.go:43-55 | one turn of the element loop: element k's request, then the rest from where element k ends |
| Code39.BarKept | code39/code39.go:50-52 | a bar element reaches the canvas exactly when AddModule accepts it |
| Code39.SpaceKept | code39/code39.go:50-54 | a space element leaves the canvas as it is |
| Code39.BarDrawn | code39/code39.go:50-53 | drawing bar k moves it from what is still to come onto the canvas |
| Code39.SpaceDrawn | code39/code39.go:50-54 | skipping space k keeps the loop invariant |
| Code39.ElementStep | code39/code39.go:43-55 | element k is split off what is still to come |
| Code39.DrawElement | code39/code39.go:44-54 | one turn of the element loop: the offset moves past the element, and "canvas followed by the rest of the pattern is the final canvas" is kept |
| Code39.NextParity | code39/code39.go:54 | proof helper: bars and spaces alternate: element k + 1 is a bar exactly when element k is not |
| Code39.AddSymbol | code39/code39.go:38-55 | the element loop of one symbol returns the offset after the pattern, and the canvas gains exactly its accepted bar requests |
| Code39.DrawnSymbols | code39/code39.go:37-57 | defines the canvas contents the symbol loop adds: each symbol's accepted element requests, the next symbol starting one narrow gap after the previous one ends |
| Code39.DrawnSymbolsNext | code39/code39.go:37-57 | the first remaining symbol is drawn at the offset, the others one narrow gap after it |
| Code39.DrawnSymbolsSplit | code39/code39.go:37-57 | drawing symbol j moves it from what is still to come onto the canvas |
| Code39.DrawSymbol | code39/code39.go:37-57 | one symbol keeps "canvas followed by what the remaining symbols add is the final canvas" |
| Code39.DrawnSymbolsDone | code39/code39.go:57-58 | once no symbol is left the canvas is the final canvas |
| Code39.Wrapped | code39/code39.go:21 | the wrapped data is two characters longer and starts and ends with '*' |
| Code39.WrappedAt | code39/code39.go:21 | data character i is wrapped character i + 1 |
| Code39.TotalNarrow | code39/code39.go:25 | n symbols of at least 0 narrow units each take at least n narrow units |
| Code39.StartOffset | code39/code39.go:36 | the offset as written, half of width - totalNarrow truncated: when the width holds totalNarrow pixels it is at least 0 and within half a pixel of the centre of the leftover, otherwise at most 0 |
| Code39.PatternsFor | code39/code39.go:39 | defines the patterns the symbol loop looks up, in order; a character without an entry gets "" (New fails on it before drawing) |
| Code39.SymbolAt | code39/code39.go:39 | symbol i of the drawing is the pattern of character i |
| Code39.WrappedEncodable | code39/code39.go:21-42 | since '*' has a pattern, the wrapped data is drawable exactly when the data is, and the first unsupported wrapped character is the first unsupported data character |
| Code39.Encode | code39/code39.go:18-59 | error exactly when width < totalNarrow or some data character has no pattern, with InsufficientWidth first and otherwise the first unsupported data character; on success a fresh valid canvas of the given size holding the accepted requests of the symbols of "*" + data + "*" from the start offset |
| Code39.New | code39/code39.go:18-59 | the same as Encode, with the package's `patterns` map |
| Code39Properties.PatternsWellFormed | code39/code39.go:94-139 | '*' has the pattern "nwnnwnwnn", and every pattern has nine narrow-or-wide elements, exactly three of them wide |
| Code39Properties.TokensAt | code39/code39.go:94-139 | every element of a well-formed pattern is 'n' or 'w' |
| Code39Properties.ElementsWidthCount | code39/code39.go:43-53 | a pattern's pixel width is its narrow count times the narrow width plus its wide count times the wide width |
| Code39Properties.SymbolAdvance | code39/code39.go:25-27 | a symbol with its gap advances the offset by (totalNarrowPerSymb + 1) narrow widths |
| Code39Properties.ElementsBefore | code39/code39.go:43-53 | defines the offset of element k relative to the symbol's start: the widths of elements 0..k-1 |
| Code39Properties.ElementsSplit | code39/code39.go:43-55 | the elements before k and the elements from k on make up the whole symbol |
| Code39Properties.ElementExtent | code39/code39.go:44-53 | defines the pixel interval element i covers when its symbol starts at offset |
| Code39Properties.IsBarExtent | code39/code39.go:50-54 | defines that an interval is the extent of a bar (even-position element) among elements k.. |
| Code39Properties.BarExtentNext | code39/code39.go:50-54 | the bars from element k on are element k when it is a bar, and the bars after it |
| Code39Properties.HeadRequest | code39/code39.go:50-52 | element k requests its own extent when it is a bar and nothing when it is a space |
| Code39Properties.ElementRequestsUnfold | code39/code39.go:43-55 | elements k.. request element k's request, then the later elements' requests |
| Code39Properties.ElementsBeforeNext | code39/code39.go:53 | element k + 1 begins where element k ends |
| Code39Properties.ElementRequestsHead | code39/code39.go:43-55 | the requests from element k on split into element k's and the rest |
| Code39Properties.MemberConcat | barcode.go:31 | proof helper: a module is in a concatenation exactly when it is in one of the parts |
| Code39Properties.ElementRequestsFrom | code39/code39.go:43-55 | from element k on, exactly the extents of the even (bar) elements are requested |
| Code39Properties.ElementRequestsMember | code39/code39.go:43-55 | a symbol requests exactly one interval per even (bar) element, namely that element's extent, and none for the spaces |
| Code39Properties.ElementsWidthNonNegative | code39/code39.go:43-53 | element widths are not negative for non-negative narrow and wide widths |
| Code39Properties.ElementRequestsWithin | code39/code39.go:43-55 | every interval a symbol requests lies within the symbol's span |
| Code39Properties.SymbolsRequests | code39/code39.go:37-57 | defines all AddModule calls of the symbol loop from symbol j on, before any is refused |
| Code39Properties.DrawnSymbolsAccepted | code39/code39.go:37-57 | drawing the symbols one by one leaves the accepted part of all their requests |
| Code39Properties.SymbolPitch | code39/code39.go:43-56 | defines the pixels a three-wide symbol plus its gap take: nw·(6 + 3·r + 1) |
| Code39Properties.UniformPitch | code39/code39.go:43-56 | defines that every symbol plus its gap advances the offset by the same pitch |
| Code39Properties.PitchStep | code39/code39.go:56 | proof helper: n symbol pitches are one pitch and n - 1 more |
| Code39Properties.SymbolsRequestsWithin | code39/code39.go:37-57 | every requested interval lies between the offset and the start of the final gap |
| Code39Properties.CodeWidth | code39/code39.go:25-30 | in a successful New, narrow and wide widths are at least one pixel and n symbols span totalNarrow * narrowWidth <= width pixels |
| Code39Properties.WrappedPatterns | code39/code39.go:21-42 | for drawable data the wrapped data has |data| + 2 symbols, all of one pitch |
| Code39Properties.TablePitch | code39/code39.go:94-139 | patterns with three wide elements all advance the offset by one pitch |
| Code39Properties.DrawnWithin | code39/code39.go:36-57 | every kept bar lies between the start and the final gap and ends before the last column |
| Code39Properties.NewLayout | code39/code39.go:18-59 | in a successful New the start offset is not negative, and every kept bar lies between it and totalNarrow narrow widths on (less the final gap) and ends before the last column |
| Code39Properties.CentringOverruns | code39/code39.go:36 | as written, with narrow elements of 2 or more pixels: the left margin is at least half the narrow-unit count while the code reaches or passes the right edge |
| Code39Properties.EmptyDataPatterns | code39/code39.go:21 | the empty data is drawn as two '*' symbols |
| Code39Properties.StarPatterns | code39/code39.go:21 | the wrapped empty data gives '*''s pattern twice |
| Code39Properties.StarsDropBar | code39/code39.go:36-57 | two '*' symbols from pixel 16 with 2- and 6-pixel elements request the bar [60, 66), which a 64-pixel canvas drops |
| Code39Properties.SymbolsRequestsUnfold | code39/code39.go:37-57 | the requests from symbol j on are symbol j's followed by the later ones' |
| Code39Properties.StarGeometry | code39/code39.go:94-139 | '*' with 2- and 6-pixel elements is 30 pixels wide, and its fifth element lies 12 pixels in |
| Code39Properties.StopBarDropped | code39/code39.go:36-57 | as written: New("", 64) under the default settings starts at pixel 16 and requests the stop bar [60, 66), which the canvas drops |
| Code39Properties.IntendedStartOffset | code39/code39.go:36 | the intended offset is not negative, centres the code to within one pixel, and lets it fit |
| Code39Properties.DrawnAllKept | code39/code39.go:36-57 | symbols that fit between the start and the right edge reach the canvas whole |
| Code39Properties.IntendedLayoutKeepsAll | code39/code39.go:36-57 | with the intended start offset every bar New requests reaches the canvas |

## Findings

Both encoders are modelled as the code behaves: `Code128.New` and `Code39.New` keep every behaviour listed below. The corrected definitions stand beside them, each with the property its authors evidently intended proved about it.

| source | as written | input that shows it | evidently intended | confidence | as-written member | corrected member |
|---|---|---|---|---|---|---|
| code128/code128.go:51-55 | checkDigit weights data value i by its 0-based position i, and the Start B value is not added | New("A", ...) and New("B", ...) draw the same check pattern | the Code 128 symbol check character of ISO/IEC 15417: start value 104 plus the sum of value times (i + 1), modulo 103 | not executed | Code128Properties.CheckIgnoresFirst | Code128Properties.StandardCheckDetectsFirst |
| code128/code128.go:163-181 | 'g'..'o' all map to 7 and 'q'..'y' all map to 8 | New("g", ...) and New("'", ...) draw the same data pattern | every printable character maps to its code point minus 32 | not executed | Code128Properties.ValueBCollides | Code128Properties.IntendedValueBDistinct |
| barcode.go:25-27 | AddModule refuses an interval with end == width, although intervals are half-open | Code128 New("", 35, h): 1 pixel per module, and the last bar [34, 35) is refused | accept end <= width | not executed | Code128Properties.ExactFitDropsLastBar | Code128Properties.IntendedCheckKeepsAll |
| code39/code39.go:36 | the start offset subtracts the narrow-unit count (totalNarrow * minWidth), not the code's pixel width, from the width | Code39 New("", 64, h) with default settings: start 16, and the stop bar [60, 66) is dropped | (width - totalNarrow * narrowWidth) / 2 | not executed | Code39Properties.StopBarDropped | Code39Properties.IntendedLayoutKeepsAll |

## Left out

- `ColorModel` (barcode.go:37-39) returns a constant and holds no logic. The colours are the two-valued `Color` rather than their RGBA values (barcode.go:57-58).
- Error messages are the `EncodeError`, `RangeError` and `RatioError` variants, not formatted text.
- Input strings are `seq<char>`, one element per rune. Go's decoding of invalid UTF-8 to U+FFFD and `utf8.RuneCountInString` are not modelled.
- The `Barcode` wrapper types of the two encoder packages, which only embed the canvas, are not modelled: `New` returns the canvas itself.
- The unused constants patternStartA, the Start C constant, patternStop and the unused `smb` type (code128/code128.go:12-15, 84-87) are not modelled.
- The Code39 settings are package-level variables in Go. Here they are a `Config` object passed to `New`, and concurrent access to them is not modelled.
- Go's `int` is 64 bits wide. The model uses unbounded integers, so overflow of `totalModules`, `totalNarrow` or the offsets for huge inputs is not modelled.
- `strings.Join` in code39/code39.go:21 is modelled by its result, `"*" + data + "*"`.
- Code39Properties.PatternsWellFormed: states the shape of every pattern and the pattern of '*', but not that the map has exactly 44 keys. The keys are the literal map itself.
- Encoding.TruncDiv: for a negative dividend the contract states only that the quotient is not positive. The body computes Go's exact value.
- Code39Properties.NewLayout: bounds every kept bar within the code's span but does not state the position of each element. Code39Properties.ElementRequestsMember and Code39.Encode state those positions.
