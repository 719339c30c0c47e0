# Verification of v32lua

A Dafny model of the parts of v32lua, a Lua compiler for the Vircon32 console, whose correctness
does not show in one function at a time, and proofs about it. `dafny verify dfyconfig.toml`
checks everything.

Code that the compiler writes as loops over changing state is modelled as methods and classes over
arrays and fields. Each of them computes a function (`...Spec` and the like) that says what the
result is; what the code is for is then proved about that function. The modules `Rfc1951` and
`...Rules` and their like say it once more from the input alone, construct by construct and number by
number, with definitions of their own.

| files | what they model |
|---|---|
| `Bits`, `Huffman`, `Canonical`, `Inflate` | the PNG loader's decoder for RFC 1951, sections 3.2.2 to 3.2.7, bit by bit, and what its canonical codes mean |
| `Rfc1951`, `StandardCodes` | the numbers and codes of RFC 1951 in closed forms, and that the decoder's are those |
| `Deflate`, `DeflateBlocks`, `DeflateRoundTrip` | a reference encoder written from the standard, with every choice an encoder has (block types, code lengths, run lengths, matches), and the proof that the decoder undoes it |
| `Unfilter` | the row filters of RFC 2083, section 6, undone in place |
| `Closures`, `Captures`, `Occurrences` | lexical scoping as a definition, the pass that finds upvalues and boxed locals, and what it finds in terms of the identifiers of the program |
| `Returns`, `ReturnFixpoint`, `ReturnChain`, `ReturnRules` | how many values each function returns, recounted until nothing changes |
| `Circles`, `Pico8Circle`, `Tic80Circle`, `Tic80Pixels`, `ShapeAtlas`, `ShapeRules` | circles as both consoles draw them, and the texture they are packed into |
| `Includes`, `Expander`, `IncludeGraph`, `IncludeOrder` | `--#include` with its line map, what it does with the graph of files, and where each file lands |
| `Frames`, `FrameLayout`, `FrameRules`, `CodeGenerator`, `Registers`, `RegisterAllocator`, `RegisterRules` | stack slots, scopes, spill slots and the register allocator |
| `Pico8Lex`, `Pico8Tokens`, `Pico8Scan`, `Pico8Rules`, `Pico8Shorthand`, `Pico8Balance`, `Pico8Pairs`, `Pico8Matching`, `Pico8Rewrite` | the rewriting of then-less `if` and do-less `while` |
| `Paths`, `PathRules`, `XmlNames`, `Escapes` | path normalization, names of assets, string literals |
| `Options`, `Numbers`, `Characters` | small definitions the others share |

## What the proofs show about the code

Some statements in comments do not hold of the code in all cases. For each, the exact condition or
a counterexample is proved.

- `analyze_block` looks at the first iterator expression of a generic `for` only
  (`src/closures.c:211`), while the grammar makes a list of them (`src/parser.y:435`). A variable of
  an enclosing function that is used only in `for k in next, t do` is not captured
  (`Closures.ListIteratorMissed`). `Closures.SeenIsLexical` says exactly when the pass is complete;
  what it does record is always right.
- `settle_return_counts` is called bounded because counts only grow (`src/context.c:968`), and stops
  after 64 passes. That is enough for 64 functions (`ReturnFixpoint.SettlesToLeast`), and for no larger
  number in general (`ReturnChain.ChainUnsettled`): a chain of 65 functions that pass `...` through
  leaves the first one unmarked.
- The argument count of a variadic function is kept "just below the spill area"
  (`src/node/function.c:80`). The spill slots start one word lower than the reserve assumes
  (`src/register.c:31`), so that word is the spill slot of R13 (`Frames.VarargSlotIsSpillSlot`).
- `pico8_expand_shorthand` promises to insert before a trailing comment (`src/pico8_shorthand.c:31`).
  `Pico8Balance.InsideExactlyWhenCut` says exactly when an `end` gets lost in a string or comment instead.
  The texts it is called on (`src/main.c:454`) consist of whole lines, since the expansion of includes ends
  every line. In those only a string or long bracket that is never closed swallows an `end`
  (`Pico8Balance.OnlyUnclosedSwallows`), and an unclosed long comment does (`Pico8Rewrite.EndInComment`).
- The search for the end of a condition counts parentheses, the scan counts all brackets. When they
  disagree an `end` can come before its `then` (`Pico8Rewrite.EndBeforeThen`). Each `end` comes after its
  own opener exactly when the scan never closes a body whose condition it is still reading
  (`Pico8Rewrite.EndsFollowOpeners`), which it never does when the brackets of all conditions nest
  (`Pico8Rewrite.ScanInTime`).
- A comment in the allocator says two consecutive allocations no longer return the same register
  (`src/register.c:210`). They can, in every phase; `Registers.TakenAgain` says exactly when. The last free
  register goes again unless a lower register is dead, a dead or evicted one goes again when no other
  register is dead or settled by then and no higher one can be moved. `Registers.LastTakenThrice` reaches
  both cases from a new allocator.

## Model

| member | source | states |
|---|---|---|
| `Inflate.Inflate.GetBit` | src/png.c:24-35 | takes the lowest unread bit of the stream; at the end of the source it reports an error and reads zero |
| `Inflate.Inflate.GetBits` | src/png.c:37-42 | takes the next n bits as a number, least significant bit first |
| `Bits.ByteBitAt` | src/png.c:24-35 | the bits of a byte string: bit k is bit k % 8 of byte k / 8, from the least significant on |
| `Inflate.Inflate.CopyWithin` | src/png.c:100 | copies byte by byte from d bytes back, also when source and destination overlap; the output becomes Copy of the old output |
| `Deflate.CopyPeriodic` | src/png.c:100 | in a copied stretch every byte equals the one d before it, and what was there stays |
| `HuffmanCodes.Huffman.Build` | src/png.c:52-62 | turns any code lengths up to 15 into the table of canonical codes: counts per length, symbols by length and then by value |
| `HuffmanCodes.DecodeConsumes` | src/png.c:64-79 | a decoded symbol takes at least one bit, so decoding ends with the bits as measure |
| `HuffmanCodes.TableOfFilled` | src/png.c:52-79 | the counts of any code lengths, oversubscribed or not, add up to the number of symbols entered in the table |
| `HuffmanCodes.DecodeInTable` | src/png.c:64-79 | whatever the counts, decoding reads filled entries only: a decoded symbol is one of the table's |
| `Inflate.Inflate.Decode` | src/png.c:64-79 | the bit-by-bit decoder answers what the table's codes say about the unread bits |
| `Canonical.CodesFit` | src/png.c:52-79 | lengths that are not oversubscribed give every code as many bits as its length |
| `Canonical.DecodeCodeWord` | src/png.c:64-79 | the canonical code word of a symbol followed by anything decodes to the symbol and leaves the rest |
| `Canonical.DecodeSound` | src/png.c:64-79 | for any lengths, a decoded symbol is in range and the bits taken are its code word |
| `Canonical.DecodeExact` | src/png.c:64-79 | the decoder answers a symbol and a rest exactly when the input is the symbol's code word followed by the rest |
| `Canonical.DecodesIffNotOversubscribed` | src/png.c:52-79 | every symbol decodes from its own code word exactly when the lengths are not oversubscribed |
| `Canonical.SymbolsRoundTrip` | src/png.c:64-79 | decoding the concatenated codes of any symbol sequence gives that sequence and what follows it |
| `StandardCodes.WordIsStandard` | src/png.c:52-79 | the code of a symbol is the number RFC 1951, section 3.2.2, computes for it, sent from the most significant bit on |
| `StandardCodes.FixedWords` | src/png.c:122-128 | the fixed literal and length code consists of the words that section 3.2.6 lists |
| `StandardCodes.FixedDistanceWords` | src/png.c:129-130 | a fixed distance code is the symbol in five bits |
| `Inflate.Inflate.Codes` | src/png.c:86-103 | the literal and match loop computes CodesSpec on the unread bits and the output so far, and ends on every input |
| `Inflate.Inflate.Stored` | src/png.c:113-119 | a stored block drops the rest of the current byte and copies whole bytes, with all its failure cases |
| `Inflate.Inflate.RunLengths` | src/png.c:139-151 | reads the run-length coded lengths of both codes, refusing a repeat without a predecessor and runs that are too long |
| `Inflate.Inflate.Blocks` | src/png.c:109-161 | the block loop computes BlocksSpec, ends on every input and fails exactly where BlocksSpec does; what that means is the rows on RFC 1951 and the round trips |
| `Inflate.InflateZlib` | src/png.c:105-162 | the whole decoder agrees with ZlibSpec, including every rejected stream; EncodeZlibRoundTrip and the rejections say what that is |
| `Deflate.TablesStandard` | src/png.c:81-84 | the tables hold the bases and extra bits of section 3.2.5, given there by closed forms: each code starts where the one before ends, 258 has a code for itself |
| `DeflateBlocks.PlacedLengths` | src/png.c:134-138 | code length i of a header goes to 16, 17, 18 and 0 for the first four and then from 8 outwards, as section 3.2.7 says |
| `Deflate.EveryMatch` | src/png.c:81-84 | every length from 3 to 258 and distance to 32768 has a code with extra bits, by the closed forms of RFC 1951, so the reference encoder can express every match |
| `Deflate.DataRoundTrip` | src/png.c:86-103 | decoding the tokens of a block as an encoder written from RFC 1951 sends them gives their sequential expansion, or failure when a match reaches too far back or the output does not fit |
| `DeflateBlocks.LengthsRoundTrip` | src/png.c:139-151 | every run-length encoding of code lengths reads back as those lengths |
| `DeflateRoundTrip.FixedCodesGood` | src/png.c:120-131 | the fixed codes are not oversubscribed and have a code for the end of a block |
| `DeflateRoundTrip.StoredRoundTrip` | src/png.c:113-119 | a stored block written at any bit position reads back as its bytes |
| `DeflateRoundTrip.DynamicRoundTrip` | src/png.c:132-154 | a block with its own codes reads back as its tokens; the encoder writes header, code lengths, repetitions and matches by RFC 1951 and shares no table or order with the decoder |
| `DeflateRoundTrip.BlocksRoundTrip` | src/png.c:109-161 | for every list of stored, fixed and dynamic blocks the decoder outputs the expansion when there is one and capacity suffices, and fails when a match reaches too far back or capacity does not suffice |
| `DeflateRoundTrip.EncodeZlibRoundTrip` | src/png.c:105-162 | the same for complete zlib streams of bytes |
| `DeflateRoundTrip.MethodRejected` | src/png.c:105-156 | a stream shorter than its header or of another compression method is refused, and a block of the reserved type |
| `DeflateRoundTrip.LengthRejected` | src/png.c:93-94 | the two reserved length symbols are refused |
| `DeflateRoundTrip.DistanceRejected` | src/png.c:97 | the two reserved distance symbols are refused, after any length |
| `DeflateRoundTrip.RunRejected` | src/png.c:146-149 | a repetition with nothing to repeat is refused, and a run past the number of lengths |
| `Unfilter.PaethNearest` | src/png.c:166-170 | the predictor is the neighbour nearest to a + b - c, ties in the order left, above, above left |
| `Unfilter.RowRoundTrip` | src/png.c:238-255 | undoing any filter on a row filtered by RFC 2083, section 6, gives the row back, for every prefix of it; FilterByte has each type's formula without the decoder's predictor |
| `Unfilter.ImageRoundTrip` | src/png.c:238-255 | for every image, bytes per pixel and choice of filters the image comes back; an undefined filter type is reported exactly when some row with bytes has one |
| `Unfilter.FileRoundTrip` | src/png.c:238-255 | the same for a whole file, whose first row has zeros above it |
| `Unfilter.UnfilterRows` | src/png.c:238-255 | the in-place loop over all rows computes UnfilterSpec |
| `CaptureAnalysis.MissFrozen` | src/closures.c:46-54 | changing a function's own bound names changes nothing its free names resolve to in the functions around it: what the free-variable memo relies on |
| `CaptureAnalysis.Analyzer.ResolveCapture` | src/closures.c:24-44 | adds exactly the captures lexical scoping gives a free name: boxed in its owner, carried by every function in between |
| `CaptureAnalysis.Analyzer.AnalyzeUse` | src/closures.c:46-54 | with the memo or without, after a use exactly that use's captures are recorded in addition |
| `CaptureAnalysis.Analyzer.AnalyzeExpr` | src/closures.c:56-133 | one expression adds exactly the captures of its uses and restores the open functions |
| `CaptureAnalysis.Analyzer.AnalyzeBlock` | src/closures.c:135-241 | one block adds exactly the captures of its uses, with the bound names following the lexical environment |
| `CaptureAnalysis.AnalyzeClosures` | src/closures.c:244-252 | the whole pass records exactly the captures of the uses it visits, each name once per function; Occurrences.CapturedExactly says which those are |
| `Occurrences.CapturedExactly` | src/closures.c:24-252 | a function boxes or carries a name exactly when an identifier somewhere in the program, in any part of any statement, has a nearest declaration in scope that belongs to an enclosing function other than the chunk; occurrences and scopes are found by a plain traversal that knows nothing of the pass |
| `Occurrences.BlockOccurs` | src/closures.c:56-241 | the uses are exactly these occurrences, each with the names in scope there, function by function: parameters, locals after their own right-hand sides, loop variables in the body only, the locals of a repeat body also in its condition |
| `Closures.CapturedUse` | src/closures.c:24-44 | a use of an enclosing function's variable boxes it there and makes every function from the use up to the owner carry it |
| `Closures.CaptureHasUse` | src/closures.c:24-44 | nothing is boxed or carried without such a use |
| `Closures.ParentHasUpvalue` | src/emit.c:1381-1390 | when no two functions share an identity, the one function that a function with an upvalue stands in is not the chunk and has the variable boxed or carries it, so the copy into the closure record finds it |
| `Closures.SeenIsLexical` | src/closures.c:210-219 | the pass never adds a capture that lexical scoping does not, and is complete exactly when everything that the uses in second or later iterator expressions capture is captured by a use elsewhere as well |
| `Closures.ListIteratorMissed` | src/closures.c:210-219 | a program whose capture is missed: a variable used only as the second iterator expression |
| `Returns.CountMaxReturnValues` | src/context.c:855-959 | the scan of a body computes BodyCount |
| `Returns.CountsReturns` | src/context.c:855-959 | BodyCount is the largest count of any return of the function, returns of nested functions excluded |
| `ReturnRules.CountedExactly` | src/context.c:855-959 | a body is counted as returning v values or more, for every v above 1, exactly when one of its own returns lists as many or is a single call of a function known to return as many, found by name, path or the path with underscores |
| `Returns.BodyReturnsMany` | src/node/multivalue.c:88-112 | the scan for multi-value tails computes BodyMany |
| `Returns.ManyReturns` | src/node/multivalue.c:84-112 | a body counts as returning several values exactly when one of its own returns ends in a multi-value tail |
| `ReturnRules.MarkedExactly` | src/node/multivalue.c:29-111 | a body is marked exactly when one of its own returns ends in all of `...`, an unpacked table, a call of a function known to return several, or a call nothing is known about that is no library function's |
| `Returns.Globals.MarkAsFunction` | src/context.c:346 | a definition is counted once when it is reached, with what is known then |
| `Returns.Globals.SettleReturnCounts` | src/context.c:970-988 | the loop computes 64 in-place passes, stopping early only when a pass changes nothing |
| `ReturnFixpoint.PassesGrow` | src/context.c:970-988 | counts and marks only grow |
| `ReturnFixpoint.PassesBelow` | src/context.c:970-988 | however many passes there are, no count exceeds that of any closed state above the start |
| `ReturnFixpoint.UnchangedIsClosed` | src/context.c:970-988 | a pass that changes nothing has reached a state closed under the counting rules |
| `ReturnFixpoint.LevelProgress` | src/context.c:970-988 | for every value v, each pass raises one more function to v or no function is left to raise |
| `ReturnFixpoint.MarksProgress` | src/context.c:970-988 | each pass marks one more function as returning several values or none is left to mark |
| `ReturnFixpoint.EnoughPasses` | src/context.c:970-988 | n functions need at most n passes |
| `ReturnFixpoint.SettlesToLeast` | src/context.c:970-988 | started by the prepass in any order of definitions, up to 64 functions settle to the least closed state |
| `ReturnFixpoint.LeastIsFixpoint` | src/context.c:970-988 | in the least closed state every count is exactly what the body gives |
| `ReturnFixpoint.NeverTooHigh` | src/context.c:970-988 | with any number of functions no count is too high |
| `ReturnRules.SettledExactly` | src/context.c:970-988 | after settling, for up to 64 functions, every count and mark is right by these two rules with the final counts |
| `ReturnChain.ChainUnsettled` | src/context.c:970-988 | for every number of functions above 64 there is a program that 64 passes do not settle |
| `Circles.FillRows` | src/shapes.c:73-81 | in place, a cell is set exactly when its row has a set cell at or before it and one at or after it |
| `Circles.FilledSpan` | src/shapes.c:73-81 | filling a mirrored row that is not empty gives one span about the middle |
| `Pico8Circle.OutlinePico8` | src/shapes.c:59-70 | the error-term loop sets exactly the cells OnCircle names |
| `Pico8Circle.NearestInteger` | src/shapes.c:59-70 | an octant pixel's column is the integer nearest to the circle in its row |
| `Pico8Circle.UniqueColumn` | src/shapes.c:59-70 | there is one such column per row of the octant |
| `Pico8Circle.Symmetric` | src/shapes.c:59-70 | the outline is symmetric in eight ways and inside the grid |
| `Pico8Circle.RowNotEmpty` | src/shapes.c:59-81 | no row of the outline is empty |
| `Tic80Circle.StepAdvances` | src/shapes.c:45-51 | every iteration moves a pixel in, out or both, never beyond the radius, and stays on the circle |
| `Tic80Circle.OutlineTic80` | src/shapes.c:36-57 | the scaled loop sets exactly the mirror images of the way from row to column of the centre, and ends so far apart that the finishing loop has nothing to do |
| `Tic80Circle.QuarterIsOutline` | src/shapes.c:36-57 | the way starts in the row of the centre, ends in the column of the centre, goes from neighbour to neighbour, and the circle passes through each of its pixels |
| `Tic80Circle.VisitsRow` | src/shapes.c:36-57 | it visits every row |
| `Tic80Circle.VisitsColumn` | src/shapes.c:36-57 | it visits every column |
| `Tic80Pixels.QuarterExact` | src/shapes.c:36-57 | the way consists of exactly the pixels whose larger coordinate is the nearest integer to the circle, on the diagonal one less |
| `Tic80Pixels.PixelNearest` | src/shapes.c:36-57 | such a pixel is at most half a pixel from the circle in its row |
| `ShapeAtlas.DiscRow` | src/shapes.c:72-81 | for both consoles every row of a disc is one span of pixels about the middle, bounded by outline pixels |
| `ShapeAtlas.RenderShape` | src/shapes.c:126-129 | the grid shows the outline, or the disc the outline bounds |
| `ShapeAtlas.PackShapes` | src/shapes.c:105-122 | for every maximum radius that fits the width, all regions are inside the texture and no two come closer than the gap |
| `ShapeAtlas.BuildShapes` | src/shapes.c:102-139 | in the finished texture every region shows exactly its shape and everything else is transparent |
| `ShapeRules.AtlasShows` | src/shapes.c:102-139 | for every radius the texel at column x and row y from the centre of its disc or outline is set exactly when the disc or circle has that pixel, by inequalities on x, y and the radius, for both consoles |
| `ShapeRules.AtlasLaid` | src/shapes.c:105-121 | the region of a disc is number r, that of an outline number r after all discs; each is a square of 2r + 1 texels in the texture, and a texel is free between any two |
| `ShapeRules.RestClear` | src/shapes.c:123-139 | a texel that is set is in one of the regions |
| `Includes.DirectiveExact` | src/internals.c:306-342 | a line is a directive for a path exactly when it is blanks, the keyword, blanks and the path in quotes |
| `Includes.MatchIncludeDirective` | src/internals.c:306-342 | the scan of a line computes IncludeOf |
| `Expander.Preprocessor.ExpandFile` | src/internals.c:562-591 | one file appends its expansion to the combined text, keeps the line map covering it, and fails exactly on a file that is being expanded or missing |
| `Expander.Preprocessor.ExpandLines` | src/internals.c:612-661 | the line loop with its recorded runs computes LinesSpec |
| `Expander.Preprocessor.PushRun` | src/internals.c:86-104 | a run is recorded unless it is empty; the map then covers the text |
| `Expander.ExpandIncludes` | src/internals.c:664-687 | the combined text and its map, or failure, exactly as ExpandSpec says; it ends on every finite set of files |
| `Expander.RunsAdjacent` | src/internals.c:86-104 | the runs start at line 1, follow each other without gaps and end with the last line |
| `Expander.RunsOrdered` | src/internals.c:86-104 | the runs are in order and do not overlap |
| `Expander.EveryRunFits` | src/internals.c:86-104 | every run states the file and line numbers of its lines correctly |
| `Expander.ResolveSourceLocation` | src/internals.c:698-736 | for every combined line the answer is the file and line it was copied from; lines past the end are reported as the last one |
| `IncludeGraph.ExpandOrigins` | src/internals.c:624-655 | the text of each combined line is that of its recorded origin, and no directive |
| `IncludeGraph.ExpandsIffSound` | src/internals.c:562-661 | expansion succeeds exactly when no reachable file is on a cycle of includes and none is missing or names a missing one |
| `IncludeGraph.ExpandFails` | src/internals.c:568-573 | the error names its cause: the file reported as circular is reachable and on a cycle, the one reported otherwise is reachable and missing or names a missing file |
| `IncludeGraph.SplicedOnce` | src/internals.c:575-586 | a file that is reached is in the combined text exactly once, whole and in order except for its directives; one that is not reached is not in it |
| `IncludeGraph.OtherSpelling` | src/internals.c:562-591 | two spellings with one canonical path are one file: once included under one, the other adds nothing, and is reported while the file is open |
| `IncludeOrder.SplicedInOrder` | src/internals.c:562-661 | there is a combined text exactly when replacing every directive by its file, as often as it is named, gives one, and it is that text with each line kept where it occurs first: a file lands at the first directive that names it in the order of reading |
| `IncludeOrder.LocatedText` | src/internals.c:664-736 | the file and line the map gives for combined line k hold exactly the text of combined line k, and no directive |
| `Frames.CountFunctionLocals` | src/generator.c:127-230 | the counting loop computes CountLocals |
| `CodeGenerator.Generator.RegisterLocal` | src/context.c:162-224 | a new local gets the scope's next slot, within what was counted; a name of the current scope keeps its slot; on the chunk's level it becomes a global |
| `CodeGenerator.Generator.ResolveSymbol` | src/context.c:97-123 | the outward search computes Resolve |
| `Frames.ResolvesInFrame` | src/context.c:97-123 | a name means the nearest symbol of the same function, or a global, never a local of an enclosing function |
| `FrameLayout.BlockFits` | src/generator.c:127-230 | for every block, the slots handed out while it is generated are within the count made before, in the block itself and in every function inside it |
| `FrameRules.SnugUses` | src/generator.c:127-230 | the count is exact: in every block whose locals are new in their scopes and are all alive at once the last word that was counted is used, whichever constructs it nests |
| `FrameRules.AllRegistered` | src/generator.c:398-463 | every name the program declares is registered, in order, those of loops, branches and nested functions included |
| `FrameRules.FrameStarts` | src/node/function.c:122-163 | the frame of a function starts with its upvalues from word 2 above the base on, then its parameters without `...`; its locals start at word 1 below |
| `FrameRules.RegisterNews` | src/context.c:162-224 | new names of a scope get consecutive words in order |
| `FrameRules.NumericWords` | src/node/loop.c:43-248 | a numeric for takes four words, for limit, step, control and index; its body goes on from there in the same scope |
| `FrameRules.GenericWords` | src/node/loop.c:502-812 | a generic for takes three words for its state and then one for each variable; its body is a scope inside theirs |
| `CodeGenerator.Generator.GenerateBlock` | src/generator.c:398-463 | the walk registers exactly the locals BlockLog lists, each in its slot, and leaves only the block's own declarations |
| `CodeGenerator.Generator.GenerateNumeric` | src/node/loop.c:43-248 | a numeric for registers limit, step, control and index in the scope of its body, and the scope ends with it |
| `CodeGenerator.Generator.GenerateGeneric` | src/node/loop.c:502-812 | a generic for registers its state and its variables, its body in a scope inside theirs, and both scopes end with it |
| `CodeGenerator.Generator.GenerateFunction` | src/node/function.c:57-262 | a function gets a frame of its own with as many slots as counted, and the frame of the code around it is as before |
| `CodeGenerator.Generator.GenerateGlobalSetup` | src/generator.c:694-722 | the same walk for the chunk, whose own locals become globals |
| `Frames.BlockExtends` | src/context.c:41-82 | the slots a block's own declarations take are bounded by the count, and enclosing scopes are untouched |
| `Frames.VisibleDistinct` | src/context.c:53-65 | two locals of a function in scope at the same time, shadowed ones included, have different slots |
| `Frames.SlotBelowCounter` | src/context.c:186-187 | every slot in use in a frame is below the innermost counter |
| `Frames.SpillsDistinct` | src/register.c:29-32 | no two registers share a spill slot and none is a local's word |
| `Frames.SpillReserved` | src/node/function.c:57-62 | the reserved words hold the spill slots of all registers but the last |
| `Frames.VarargSlotIsSpillSlot` | src/node/function.c:80-83 | the word for a variadic function's argument count is the last register's spill slot |
| `Registers.PicksOne` | src/register.c:196-296 | the four phases determine one register, never R0 and never a pinned one |
| `Registers.PicksUnlessAllPinned` | src/register.c:196-296 | an allocation finds a register exactly when not all of R1 to R13 are pinned |
| `RegisterRules.PicksFirst` | src/register.c:196-296 | the register taken is the first of R1 to R13 in one order: free before dead before not handed out lately before in use, lowest first among free and dead, farthest used first (lowest on ties), highest first among the rest |
| `RegisterRules.TakenIs` | src/register.c:189-296 | what an allocation enters, table by table, and that a register is saved exactly when it is neither free nor dead |
| `Registers.TakenAgain` | src/register.c:189-296 | for a register found in any of the four phases, exactly when the next allocation takes it again: a free one when no other is free and no lower one dead, the others when no other is dead or settled by then and none above can be moved |
| `Registers.LastTakenThrice` | src/register.c:189-296 | an allocator that has pinned registers 1 to 12 takes the last one three times in a row, in three different phases |
| `RegisterAllocator.Allocator.FindFarthest` | src/register.c:224-241 | the third phase finds the unpinned register, not among the last two handed out, that is used farthest away |
| `RegisterAllocator.Allocator.FindHighest` | src/register.c:243-251 | the last phase finds the highest unpinned register, or all are pinned |
| `RegisterAllocator.Allocator.Allocate` | src/register.c:189-296 | the register taken is the one the phases pick, an evicted one is saved in its slot, and exhaustion is reported exactly when all are pinned |
| `RegisterAllocator.Allocator.AllocatePinned` | src/register.c:300-305 | the register pinned is not held by anyone else; all held pins stay distinct |
| `RegisterAllocator.Allocator.UnlockPinned` | src/register.c:308-312 | the holder's pin is released and no other |
| `RegisterAllocator.Allocator.AllocateNotR2R3` | src/node/multivalue.c:115-123 | the register is neither R2 nor R3, the pins are as before, and it fails exactly when all others are pinned |
| `RegisterAllocator.Allocator.Spill` | src/register.c:62-71 | an unpinned register is saved in its own slot and becomes free; a pinned one is left alone |
| `RegisterAllocator.Allocator.EnsureInRegister` | src/register.c:95-106 | a pending spill is reloaded once, from the register's own slot |
| `RegisterAllocator.Allocator.Unlock` | src/register.c:126-136 | freeing a register forgets its liveness and any pending spill |
| `RegisterAllocator.SpillRestores` | src/register.c:62-106 | a register that is spilled and later ensured has its value back, whatever the allocator does to other registers and the code computes in any register in between; Spill, EnsureInRegister and Allocate emit the moves it runs |
| `RegisterRules.SpilledIs` | src/register.c:62-71 | a spill saves the register in word base - r - 1 and frees it, so the next allocation takes it unless a lower one is free; a pinned register and all others are as before |
| `RegisterRules.EnsuredIs` | src/register.c:95-106 | a pending spill is reloaded from that word and no longer pending; without one nothing changes |
| `RegisterRules.ReleasedIs` | src/register.c:126-136 | a released register is free and dead and has nothing to reload |
| `Pico8Lex.MatchIsToken` | src/pico8_shorthand.c:110-132 | the closing parenthesis found is a token of its own, never inside a string, comment or name |
| `Pico8Lex.FindParen` | src/pico8_shorthand.c:110-132 | the search loop computes MatchParen |
| `Pico8Lex.SkipToken` | src/pico8_shorthand.c:83-107 | the skipping loops end where the token does |
| `Pico8Tokens.KindExact` | src/pico8_shorthand.c:166-211 | which token starts at a position, by its first characters |
| `Pico8Tokens.EndExact` | src/pico8_shorthand.c:82-106 | where it ends: comments at the line end, long brackets past the first closing bracket of their level, strings past their quote or at the line end, names and numbers with their last character |
| `Pico8Scan.Scanner.ScanAll` | src/pico8_shorthand.c:165-254 | the scan computes Scan: which pieces go where |
| `Pico8Rules.ShorthandExact` | src/pico8_shorthand.c:110-156 | a word starts a shorthand exactly when a condition in parentheses follows, closed at the first place where they balance among the tokens, and then on the same line a name other than then, do, and, or, or `?` or `;` |
| `Pico8Rules.StepInserts` | src/pico8_shorthand.c:169-254 | what a token inserts: ` then ` after the condition of an if, ` do ` after that of a while, an end for each body opened at this depth at a line end or before end and until, and nothing else |
| `Pico8Rules.StepCounts` | src/pico8_shorthand.c:205-251 | how each token changes the depth of brackets and blocks and the number of loops whose do is to come |
| `Pico8Rules.StepMarks` | src/pico8_shorthand.c:169-202 | where the ends of a line go: before the comment that ends it |
| `Pico8Rules.LastInserts` | src/pico8_shorthand.c:255-256 | at the end of the text every body still open is closed there |
| `Pico8Rules.OpenersExact` | src/pico8_shorthand.c:222-233 | a then or do is inserted for every shorthand of the text, and for nothing else |
| `Pico8Rules.Unchanged` | src/pico8_shorthand.c:158-280 | a text without a shorthand is returned as it is |
| `Pico8Shorthand.SortInserts` | src/pico8_shorthand.c:262-267 | the in-place insertion sort computes Sorted |
| `Pico8Shorthand.SortedAscends` | src/pico8_shorthand.c:262-267 | the sorted pieces are the same pieces in ascending order |
| `Pico8Shorthand.SortStable` | src/pico8_shorthand.c:262-267 | pieces at one position keep the order in which they were recorded |
| `Pico8Shorthand.PureInsertion` | src/pico8_shorthand.c:268-277 | deleting the inserted characters gives the source back; the inserted characters are the pieces |
| `Pico8Shorthand.CharacterKept` | src/pico8_shorthand.c:268-277 | every source character is in the output with as many line ends before it |
| `Pico8Rewrite.ExpandShorthand` | src/pico8_shorthand.c:158-280 | the output is the source with the sorted pieces woven in |
| `Pico8Rewrite.KeepsCharacters` | src/pico8_shorthand.c:158-280 | the rewriting as a whole only inserts and moves no line |
| `Pico8Balance.InsideExactlyWhenCut` | src/pico8_shorthand.c:169-254 | a piece ends up in a string or comment exactly when a body is finished on a line that breaks off a quoted string, or is pending when the text ends in an unfinished token |
| `Pico8Balance.NeverInsideWhenComplete` | src/pico8_shorthand.c:158-254 | in a text whose strings and long brackets are closed and that does not end in a line comment, no piece ends up in a string or comment |
| `Pico8Balance.OnlyUnclosedSwallows` | src/pico8_shorthand.c:158-254 | in a text of whole lines only a quoted string or long bracket that is not closed swallows a piece, and the piece is the end of a line |
| `Pico8Rewrite.EndInComment` | src/pico8_shorthand.c:253-254 | a text of whole lines whose last comment is never closed: the end is put into the comment |
| `Pico8Rewrite.Balanced` | src/pico8_shorthand.c:158-254 | as many ends are inserted as thens and dos, whatever the source |
| `Pico8Matching.HasEnd` | src/pico8_shorthand.c:158-254 | when no opener is left open, every recorded then or do is closed by an end recorded after it |
| `Pico8Matching.OwnDistinct` | src/pico8_shorthand.c:158-254 | no two ends close the same one |
| `Pico8Matching.RankOrder` | src/pico8_shorthand.c:262-268 | of two recorded pieces the earlier one comes first in the output unless its position is larger |
| `Pico8Rewrite.EndsFollowOpeners` | src/pico8_shorthand.c:158-280 | every end closes a then or do and none is left open; in the output each end comes after its own opener exactly when the scan never closes a body whose condition it is still reading |
| `Pico8Rewrite.PrefixesExact` | src/pico8_shorthand.c:158-280 | every beginning of the output has at least as many inserted openers as ends exactly when up to every position of the source as many have been recorded |
| `Pico8Rewrite.PrefixesOpenFirst` | src/pico8_shorthand.c:158-280 | when no body is closed while its condition is still being read, every beginning of the output has at least as many inserted openers as ends |
| `Pico8Rewrite.ScanInTime` | src/pico8_shorthand.c:158-254 | when the brackets of every condition nest, no body is closed while its condition is being read |
| `Pico8Rewrite.PrefixesOpenFirstWhenNested` | src/pico8_shorthand.c:158-280 | so the output is balanced from the left for every source whose conditions nest |
| `Pico8Rewrite.EndBeforeThen` | src/pico8_shorthand.c:110-132 | a condition whose brackets do not nest: the end is put before the then |
| `Paths.SplitNormalized` | src/pathutil.c:58-101 | the loop over the pieces computes Split |
| `Paths.SplitProper` | src/pathutil.c:58-101 | normalized components are never empty, a single or a double dot, and contain no separator |
| `Paths.SplitWithinLimit` | src/pathutil.c:58-101 | the limit of 256 components does not show in paths with no more pieces |
| `PathRules.PiecesOf` | src/pathutil.c:76-98 | the pieces of a path are what stands between its slashes and backslashes |
| `PathRules.FromCurrent` | src/pathutil.c:63-74 | the components of a relative path are those of the current directory's pieces followed by its own; a path with a slash, backslash or drive in front stands for itself |
| `PathRules.NamesStay` | src/pathutil.c:91-94 | names stay as they are, as many as there is room for |
| `PathRules.DotsDropped` | src/pathutil.c:83-86 | an empty piece or single dot anywhere makes no difference |
| `PathRules.NameTakenBack` | src/pathutil.c:87-90 | a name followed by a double dot makes no difference |
| `Paths.PathRelativeTo` | src/pathutil.c:103-133 | the common prefix and string building compute RelativeTo |
| `Paths.RelativeLeadsToTarget` | src/pathutil.c:103-133 | following the relative path from the directory leads to the target, for all paths |
| `PathRules.RelativeText` | src/pathutil.c:111-129 | the relative path is one `../` for every component of the directory after the longest common beginning, then the rest of the target; its last component never counts as common |
| `Paths.PathAbsolute` | src/pathutil.c:135-162 | the string building computes AbsolutePath |
| `Paths.AbsoluteKeeps` | src/pathutil.c:135-162 | an absolute path has the same components from every current directory, a drive included |
| `Paths.AbsoluteTwice` | src/pathutil.c:135-162 | making a path absolute twice changes nothing |
| `PathRules.AbsoluteText` | src/pathutil.c:141-161 | the absolute path is its components with a slash before each, but none before a drive |
| `XmlNames.ResolveNames` | src/emit.c:443-503 | the nested loops that raise the depth compute Names, and end |
| `XmlNames.ShortestSuffix` | src/emit.c:480-503 | a name is the shortest suffix of components that differs from the names of earlier assets from other files, or the whole path when all clash |
| `XmlNames.NamesDiffer` | src/emit.c:480-503 | two assets from different files have different names, unless the later one's path is the end of the earlier one's |
| `XmlNames.NameOf` | src/emit.c:416-436 | the last components of a path, joined |
| `XmlNames.NameText` | src/emit.c:416-436 | a name of depth d is the last d components of the path, with slashes between them |
| `XmlNames.ComponentsText` | src/emit.c:416-424 | the components are the first 64 names of the path, or its last piece when it has none |
| `Escapes.ProcessStringLiteral` | src/lexer.c:711-765 | the literal's text is read into a buffer it always fits, with room for the end mark |
| `Escapes.EscapeMeans` | src/lexer.c:725-754 | a backslash and a character: n, t and r are the characters 10, 9 and 13, any other that is no digit or x stands for itself |
| `Escapes.HexMeans` | src/lexer.c:732-737 | `\xHH` is the character with that code, in either case of the digits |
| `Escapes.NoHexMeans` | src/lexer.c:738-740 | `\x` without two hexadecimal digits is an x |
| `Escapes.DecimalMeans` | src/lexer.c:743-750 | up to three decimal digits are the character with that code modulo 256 |
| `Escapes.OthersMean` | src/lexer.c:756-759 | every other character stands for itself |
| `Escapes.EmitEscaped` | src/emit.c:912-924 | the writing loop computes Escaped |
| `Escapes.ReadsBack` | src/lexer.c:711-765 | every string that is written reads back as itself |
| `Escapes.QuotedReadsBack` | src/emit.c:912-924 | so does what is between the quotes of a written literal |
| `Escapes.WrittenSafely` | src/emit.c:912-924 | the written text contains no raw line end, carriage return or tab, and no quote that is not escaped |

## Left out

- Pico8Rewrite.PrefixesOpenFirst: a count over all pieces, which another shorthand can keep up although one `end`
  precedes its own opener, so this condition is sufficient only. Pico8Rewrite.PrefixesExact has the exact one for the
  count, Pico8Rewrite.EndsFollowOpeners the exact one for each `end` and its own opener.
- Pico8Rewrite.PrefixesOpenFirstWhenNested: the same, for sources whose conditions nest.
- IncludeGraph.ExpandsIffSound: when a cycle and a missing file are both reachable, the one met first is reported;
  which one that is follows from ExpandSpec and is not stated separately.
- Paths.RelativeLeadsToTarget: the path is followed by joining it to the directory with a separator, an empty
  directory being the current one; that no shorter relative path exists is not stated.
- CodeGenerator.Generator.GenerateBlock: names made up for loops are taken to differ from the program's, and a local
  declaration lists its names in the order in which the generator registers them.
- Returns.Globals.SettleReturnCounts: calls are resolved among global symbols, as they are at that point of a
  compilation; the aliases of local functions play no part there.
- Escapes.ProcessStringLiteral: the folding of PICO-8 glyphs afterwards is not modelled.
- Tic80Circle.OutlineTic80: the loop that would finish a flat ellipse is not written out, since it is never entered.
- Text as C strings: characters are taken as they are, and texts contain no NUL.
- Widths of integers: the rasterizers, counters and positions are unbounded, as no input the compiler
  accepts brings them near their limits.
- The search for an include is a finite map from the including file (in canonical form) and the text of
  the directive to a path; file access, canonical paths and the search order are not modelled.
- One file under two spellings: the program searches next to the path as it is written, so the second spelling could
  find other includes. Here a file finds the same includes under every spelling.
- Frames.BlockFits: a function inside an expression stands as a statement of its own before the one it is part of.
- Checksums of PNG and zlib, which the code skips, chunks, pixel formats and palettes.
- The preserve-paths mode of asset names and the change of extension before it: names are made from the
  converted file's path, which is given.
- `path_project_dir` and the helpers for extensions and directories.
- Emission of assembly text, the peephole passes, labels and the runtime libraries; the allocator's
  saves and loads are kept as a list.
- Types of tokens the scanner generator produces, and the grammar.
- Growth of buffers and failure of memory allocation.
- Locals of the chunk that nested functions use, which the compiler documents as a gap: the chunk
  is no owner of captures.
- Audio synthesis, bezel art, build scripts, command line and XML printing: no property that spans
  functions.
