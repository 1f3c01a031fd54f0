# Verified models of the RealLive interpreter's core

This project models six parts of the interpreter and proves what they are for.

* **Bytecode expressions.** The scanners that find where an expression, a string or a parameter ends
  (`Extents`), the grammar they have to recognise (`BytecodeGrammar`, `Pieces`, `UnquotedStrings`,
  `ParameterExtents`), the expression trees with evaluation, assignment and the folding factories (`Expressions`,
  `ExpressionLaws`, `Arithmetic`, `ArithmeticLaws`, `Folding`), the serialiser of evaluated parameters (`Serializer`)
  and the recursive descent parser (`Parser`, `ParserRoundTrip`).
* **The audio player.** A value-level player (`Audio`), the class with the loops of the source refining it
  (`AudioPlayerClass`), and theorems over whole runs of requests: `AudioSplit`, `AudioPasses`, `AudioLoop`,
  `AudioLoopRuns`, `AudioLoopTimes`, `AudioRemain`, `AudioUnlooped`.
* **LZSS and LZSS32.** A token language with its meaning and its byte encoder (`Lzss`), the decompressor loops
  (`Compression`), what they accept (`Archives`), and both formats in numbers (`CompressionLaws`).
* **The m6 compiler.** The machine with its byte-addressed jumps and exception handlers (`M6Machine`), the language and
  its meaning without any machine (`M6Syntax`), the generated code as a function (`M6Codegen`, `M6Context`), the class
  that emits it and patches its jumps (`M6Generator`), the proof that the code does what the program means
  (`M6Correct`, `M6Programs`, `M6Statements`), what holds of all code and all programs (`M6Laws`), and where the stack
  is not kept as it should be (`M6Calls`, `M6Leftovers`).
* **Code pages 936, 949 and 1252.** One character at a time (`CodePages`), the string loops (`CodePageStrings`) and
  whole-string round trips (`CodePageRoundTrip`).
* **Gameexe configuration.** Text and numbers (`GameexeText`), the value scanner and a printer it inverts
  (`GameexeValues`), the sorted multimap with its prefix filter (`GameexeStore`) and the class (`GameexeClass`).

Modelling conventions:

* Bytes are 0..255, as comparisons such as `*src++ == 0xff` require. A read behind the end of a buffer gives the
  terminating zero. A scan that the source would continue for ever, past its buffer or without moving, is `None`.
* Machine memory is a record of read and write functions, so every theorem holds for every bank layout. An access may
  throw. Signed overflow, oversized shifts and the like are the outcome `Undefined`, not a precondition.
* The decoder of the audio player is a sample sequence and an arbitrary function that says how many sample-frames each
  call returns; every theorem holds for all of them. Samples are reals.
* The values of m6, and everything outside of the frame that is executed, are a record of operations that may change a
  world and may raise an exception. One that calls script code, a call or a magic method, has run it when it returns.
* A class method is proved equal to a function of the old state, and the theorems are about those functions.

## Findings

Where the code does not do what its neighbours expect, the exact condition is proved.

* A serialised string is scanned to its end if and only if no unescaped quote stands at a character boundary and it
  ends neither in half a character nor in a backslash byte (`Pieces.QuotedStringExtent`). It is read back as the same
  text if and only if it holds no escaped quote: the parser removes backslashes that the serialiser does not restore
  (`ParserRoundTrip.StringReadBack`).
* A store register in front of a bracket is two bytes to the parser and a memory reference to the scanner. On all
  bytecode the parser accepts, this and a following operator are the only cases in which they differ
  (`Parser.ParserAgreesWithExtent`; for printed expressions `BytecodeGrammar.PrintedExpressionExtent`).
* A special parameter with nothing in it prints a bare tag, and the scanner takes the next parameter for its contents
  (`Serializer.SerializedExtent`).
* `NextData` compares everything that follows with `###PRINT(`, not the beginning, so a bare string that begins with an
  embedded expression is an empty parameter to it, as is one that begins with a small letter other than `a`
  (`UnquotedStrings.EmbeddedStartIsMissed`, `UnquotedStrings.SmallLetterIsMissed`).
* The folding factory refuses an assignment to a constant that the plain tree evaluates
  (`Folding.AssignmentToConstantIsRefused`); `Folding.RebuildSucceeds` says exactly which trees can be folded.
* Asking the player for `a + b` samples and asking for `a` and then `b` give the same samples if and only if the player
  did not play at all, or still plays and what it has kept does not change when scaled by the volume once more, or has
  ended and kept nothing but silence (`AudioSplit.SplitRequest`). What is left over is scaled by every request that
  meets it (`AudioSplit.SplitWhilePlaying`), and what is left when the playback has ended is played by no later
  `LoadPCM`, only by `LoadRemain` (`AudioUnlooped.RunAndRemain`).
* A pass whose last frame does not start behind the front of the window, as a single decoder frame from there, does not
  count for `SetLoopTimes`; and where the next frame starts in front of what is buffered, but not at the front of the
  window, that is taken for a new pass (`AudioLoopTimes.NextFrameCutsIn`). `AudioLoopTimes.LoopTimesPromise` says
  exactly when the promised passes are played, and the playback never ends if and only if too few passes ever count
  (`AudioLoopTimes.LoopTimesNeverEnds`).
* `LoadRemain` in a window returns if and only if the player is behind its front, the next frame starts in front of
  where the player is, or a loop count ends the playback (`AudioRemain.RemainReturns`). It keeps a frame that no later
  request clips; nothing from outside the window is heard if and only if that frame lies in it
  (`AudioRemain.RemainThenRun`; with values, `AudioRemain.KeptFrameIsNotClipped`).
* A copy from distance zero is not refused and writes zeros; in LZSS32 the picture is opaque if and only if there is no
  such copy (`Archives.PictureAlpha`).
* Cp936 loses the codes a1ba, aaa2, aaa3, aaa4 and bca2, Cp949 the codes a1b8, a1ba, a3a8, 81c1, 81c3 and 81b5, the
  irregular trail bytes and the rows from c9e2 on, for which the packing runs out of lead bytes (`CodePages.Pair936`,
  `CodePages.Pair949`). For the pairs 8140 and 80fd Cp949 writes a zero byte (`CodePages.UncoveredWritesZero`), which
  cuts the string there; only a final 8140 survives, because its lead byte and the terminator decode to it
  (`CodePageRoundTrip.StringRoundTrip`, `CodePageRoundTrip.LoneLead`).
  `Cp1252::JisEncodeString` counts characters, not bytes, and writes no terminator
  (`CodePageStrings.JisEncodeString1252`).
* In an m6 function a name that is neither the function's own, nor a parameter, nor declared global is a global variable
  to every load that stands in front of its first assignment in the text, in later rounds of a loop as well, and a local
  one to those behind it (`M6Syntax.Load` and `M6Syntax.After`, with `M6Statements.StmtRuns`). Both operands of every
  operator are evaluated.
* m6 item assignment to an object with `__setitem__` leaves what the method returns on the stack, against the effect
  that its instruction promises. A program that catches nothing ends with exactly one value more for each such
  assignment, so with the stack as it was if and only if there was none; one that catches exceptions with at most as
  many (`M6Leftovers.ProgramLeaves`). A loop of n rounds leaves n (`M6Leftovers.RoundsLeave`).
* The counts of an m6 call are cut to one byte each, and once more where a class or a bound method puts arguments in
  front. With all names bound, the value of an expression comes out if and only if the counts of all calls in it fit
  (`M6Calls.ValueIfCallsFit`); a call with 256 arguments runs with none and leaves the others below its result
  (`M6Calls.ArgumentsLost`).
* A minus between two numbers of a Gameexe value separates them if and only if neither is negative
  (`GameexeValues.MinusBetweenNumbers`).

## Model

| member | source | states |
|---|---|---|
| Bytecode.AppendI32 | src/libreallive/alldefs.hpp:68-74 | Four bytes, low byte first, are appended and nothing before them changes. |
| Bytecode.ReadBackI32 | src/libreallive/alldefs.hpp:86-96 | Reading the bytes of any 32-bit integer gives it back, sign included, whatever follows. |
| Extents.ArithmaticStopsBeforeNoOperator | src/libreallive/expression.cpp:156-159 | On every byte string NextArithmatic stops at a byte that is not a backslash. |
| Extents.PrecedenceLayersKeepExtent | src/libreallive/expression.cpp:156-180 | NextCondition, NextAnd and NextExpression return what NextArithmatic returns, on every input. |
| Extents.NextString | src/libreallive/expression.cpp:182-216 | The loop computes the extent that the theorems on quoted and bare strings are about, and says when it would not end. |
| Extents.NextData | src/libreallive/expression.cpp:218-254 | The loop computes the extent that PieceExtent is about, for every byte string, and says when it would not end. |
| Extents.TagStep | src/libreallive/expression.cpp:228-248 | Whether a list or anything else follows: a tag and one parameter, however many tags there are. |
| BytecodeGrammar.PrintedExpressionExtent | src/libreallive/expression.cpp:138-180 | For every tree of the grammar in front of any bytes: NextExpression returns the printed length if and only if the bytes do not continue the expression. |
| Pieces.QuotedStringExtent | src/libreallive/expression.cpp:182-216 | NextString on a quoted text returns its length if and only if the text is quotable. |
| Pieces.PieceExtent | src/libreallive/expression.cpp:218-254 | NextData returns the printed length of every nested parameter, in front of anything but an operator; only behind a tag with nothing in it does it go on to the end of the next parameter. |
| ParameterExtents.PrintedParameterExtent | src/libreallive/expression.cpp:218-254 | For every tree of the grammar, one that opens with a parenthesis and goes on with operators included: NextData returns the printed length if and only if what follows does not continue the expression. |
| ParameterExtents.ParserAgreesWithParameter | src/libreallive/expression.cpp:218-254 | On every bytecode the parser accepts, NextData finds the length the parser consumed if and only if no operator follows and it does not end in a store register in front of a bracket. |
| ParameterExtents.SeparatorsAreSkipped | src/libreallive/expression.cpp:219-222 | A comma, and a line feed with the line number behind it, belong to the parameter that follows. |
| ParameterExtents.TaggedList | src/libreallive/expression.cpp:218-254 | A line number, two tags and a list of two parameters, byte by byte. |
| UnquotedStrings.UnquotedStringExtent | src/libreallive/expression.cpp:182-216 | A bare string with double-byte characters and embedded expressions ends where its last segment does, except for the tag letter that is given back. |
| UnquotedStrings.OneCharacter | src/libreallive/expression.cpp:182-216 | For each of the 256 bytes in front of a comma: which are characters of a bare string, which take the next byte with them, and which end it. |
| UnquotedStrings.UnquotedParameterExtent | src/libreallive/expression.cpp:223-227 | NextData agrees, if the string opens with anything but a small letter, a backslash or an embedded expression; the next four rows are about those. |
| UnquotedStrings.EmbeddedStartIsMissed | src/libreallive/expression.cpp:226-227 | A string that opens with an embedded expression is an empty parameter to NextData. |
| UnquotedStrings.SmallLetterIsMissed | src/libreallive/expression.cpp:223-227 | One that opens with a small letter other than `a` is an empty parameter too. |
| UnquotedStrings.TagOpens | src/libreallive/expression.cpp:228-248 | One that opens with `a` is a tag and the parameter behind it. |
| UnquotedStrings.BackslashOpensExpression | src/libreallive/expression.cpp:251-253 | One that opens with a backslash is an expression. |
| Arithmetic.DivisionTruncates | src/libreallive/expression.cpp:287-342 | Quotient and remainder add up to the dividend, and the remainder is smaller than the divisor and has the sign of the dividend. |
| ArithmeticLaws.AdditionCounts | src/libreallive/expression.cpp:289-291 | Addition is commutative, keeps an operand that meets 0, and goes to the next integer whenever an operand does; it is undefined exactly behind the greatest and the least integer. |
| ArithmeticLaws.SubtractionUndoes | src/libreallive/expression.cpp:292-294 | A difference is what the subtrahend adds up to the minuend with, and is defined exactly where there is one. |
| ArithmeticLaws.NegationCancels | src/libreallive/expression.hpp:496-506 | A number and its negation add up to 0; only the least integer has none, and the other unary operators do nothing. |
| ArithmeticLaws.MultiplicationAdds | src/libreallive/expression.cpp:295-297 | One more or one less in a factor adds or subtracts the other once. |
| ArithmeticLaws.NoProductBehind | src/libreallive/expression.cpp:295-297 | Where a product has overflowed, none further away from 0 is defined. |
| ArithmeticLaws.DivisionEdges | src/libreallive/expression.cpp:298-303 | Division by 0 gives the dividend; only the least integer by -1 is undefined. |
| ArithmeticLaws.BitByBit | src/libreallive/expression.cpp:304-312 | Each of the 32 bits of conjunction, disjunction and exclusive disjunction is decided by the two bits at its place. |
| ArithmeticLaws.ShiftsDoubleAndHalve | src/libreallive/expression.cpp:313-318 | One place more doubles, up to a multiple of 2 to the 32, or halves, rounded down. |
| ArithmeticLaws.ShiftsWithin | src/libreallive/expression.cpp:313-318 | A shift is undefined if and only if its count is negative or at least 32. |
| ArithmeticLaws.ComparisonsOrder | src/libreallive/expression.cpp:319-330 | The six comparisons are one total order in which every integer is less than the next. |
| ArithmeticLaws.LogicOfTruth | src/libreallive/expression.cpp:331-334 | The logical operators take every operand but 0 for true, and give 0 or 1. |
| ArithmeticLaws.UnknownIsRefused | src/libreallive/expression.cpp:335-340 | An operator throws if and only if it is none of those above, the assignment among them. |
| Folding.RebuildKeepsEval | src/libreallive/expression.cpp:344-371 | A tree rebuilt bottom-up with the factories has the value, error, memory and store register of the plain tree, from every machine state. |
| Folding.RebuildKeepsAssign | src/libreallive/expression.hpp:307-311 | Assigning to the rebuilt tree does what assigning to the plain one does. |
| Folding.RebuildKeepsPiece | src/libreallive/expression.hpp:347-353 | The rebuilt tree serialises to the same parameter with the same effects. |
| Folding.RebuildSucceeds | src/libreallive/expression.cpp:344-364 | The factories build a tree if and only if no operator between constants is an assignment or lacks a value. |
| ExpressionLaws.RebuildFolds | src/libreallive/expression.cpp:344-371 | The factories leave a tree alone if and only if there is nothing to fold in it, and nothing is left to fold in what they build. |
| Folding.AssignmentToConstantIsRefused | src/libreallive/expression.cpp:344-350 | An assignment to a constant evaluates as a plain tree and cannot be built by the factory. |
| Folding.CompoundIsAssignment | src/libreallive/expression.hpp:443-459 | A compound assignment equals the assignment of the operation, errors and repeated effects included. |
| Folding.AssignmentIsRead | src/libreallive/expression.hpp:450-454 | After an assignment to a fixed cell or the store register the target reads as the assigned value. |
| ExpressionLaws.LocationBehindValue | src/libreallive/expression.hpp:450-454 | An assignment evaluates its value and then its location, and writes to the cell that this gives. |
| ExpressionLaws.LocationTwice | src/libreallive/expression.hpp:443-449 | A compound assignment works its location out twice: with a location that has effects it reads one cell and writes another. |
| ExpressionLaws.OnlyAssignmentsChange | src/libreallive/expression.hpp:443-459 | An expression without an assignment in it leaves memory and store register as they are, whether it has a value or throws. |
| ExpressionLaws.PartsInOrder | src/libreallive/expression.hpp:546-552 | Parameters of a list see the effects of those in front of them and keep their places. |
| Expressions.StringBanks | src/libreallive/intmemref.hpp:52-60 | A parameter takes a text from three banks and a number from every other. |
| Serializer.GetSerializedExpression | src/libreallive/expression.hpp:347-353 | For every class of tree the string is the printed form of the evaluated parameter, effects in order, errors passed on. |
| Serializer.SerializeComplex | src/libreallive/expression.hpp:546-552 | The loop prints each part in parentheses, in order, evaluated from left to right. |
| Serializer.SerializeSpecial | src/libreallive/expression.hpp:599-611 | The loop prints tag and parts, in parentheses if and only if there are several. |
| Pieces.ListsInBytes | src/libreallive/expression.hpp:546-611 | A list with two parameters and special parameters with two and with one, byte by byte. |
| Serializer.SerializedExtent | src/libreallive/expression.hpp:137-142 | What is serialised is scanned to its last byte, for every memory, machine and tree whose texts are quotable, if and only if it does not end in a bare tag or no parameter follows. |
| Serializer.FilledEndsInNoTag | src/libreallive/expression.hpp:599-611 | A special parameter with at least one part at every level never ends in a bare tag. |
| Parser.ParserAgreesWithExtent | src/libreallive/parser.cpp:141-289 | On every bytecode the parser accepts, the scanner finds the length the parser consumed if and only if no operator follows and the last term is not a store register in front of a bracket. |
| Parser.StoreRegisterBeforeBracket | src/libreallive/parser.cpp:152-157 | The shortest input of that kind: the parser takes two bytes and the scanner four. |
| ParserRoundTrip.ParseWrittenLevel | src/libreallive/parser.cpp:174-285 | Written where something of a level or tighter has to stand, with the parentheses that the grammar needs there or any more, every tree is parsed by the loop of that level into exactly what the factories build, to its last byte, in front of anything but an operator as tight. |
| ParserRoundTrip.ParseWritten | src/libreallive/parser.cpp:287-289 | Parsing the bytecode of a tree, with only the necessary parentheses or with more, succeeds exactly when the tree can be folded, consumes every byte, and keeps value, errors and effects on every machine: precedence and association to the left. |
| ParserRoundTrip.ConditionInBytes | src/libreallive/parser.cpp:141-289 | A comparison of a cell at a sum with a constant, from its bytes to its folded tree. |
| ParserRoundTrip.PlusInFront | src/libreallive/parser.cpp:178-180 | At every level a unary plus in front changes nothing but the length. |
| ParserRoundTrip.NotClosed | src/libreallive/parser.cpp:183-193 | An expression in parentheses is refused without the closing one, whatever stands there instead. |
| ParserRoundTrip.NoBracket | src/libreallive/parser.cpp:150-162 | So is a reference without its closing bracket. |
| ParserRoundTrip.NoTerm | src/libreallive/parser.cpp:174-201 | What starts with neither a dollar sign, nor a parenthesis, nor one of the two unary operators is refused. |
| ParserRoundTrip.StringReadBack | src/libreallive/parser.cpp:305-323 | GetString reads any serialised string to its end as the same text if and only if the text is quotable and holds no escaped quote. |
| ParserRoundTrip.EscapedReadBack | src/libreallive/parser.cpp:305-323 | A quoted text with its quotes escaped is read as the text, if the escaped form is quotable. |
| ParserRoundTrip.UnescapeSplits | src/libreallive/parser.cpp:319-320 | Every escaped quote becomes a quote, wherever it stands, and nothing else changes. |
| ParserRoundTrip.BareReadBack | src/libreallive/parser.cpp:305-323 | A bare string is read whole, up to a tag letter that is given back. |
| Lzss.CopyIsPeriodic | src/core/compression.cpp:70-77 | Unit i of a copy at distance d equals unit i mod d of the last d units before it, overlapping or not. |
| Lzss.DecodeEncoded | src/core/compression.cpp:57-82 | The loops on any bytes that encode a valid token list produce the expansion of the tokens. |
| Lzss.ConsumedIsEncoded | src/core/compression.cpp:57-82 | Conversely, the bytes of every run that succeeds encode a valid token list that expands to its output. |
| Lzss.EncodeEncodes | src/core/compression.cpp:57-82 | The encoder's bytes encode the tokens, full and partial last groups alike, whatever follows. |
| Lzss.TokensBelowUnits | src/core/compression.cpp:57-82 | A run takes at most as many tokens as it has units of output. |
| Lzss.ExpansionBound | src/core/compression.cpp:57-82 | The output is at most eight times the encoded bytes. |
| Compression.DecompressLzss | src/core/compression.cpp:38-84 | The loops compute the token decoder on the body, with every error of header, size and missing data. |
| CompressionLaws.TokensInNumbers | src/core/compression.cpp:63-79 | A copy is 2 to 17 bytes or 1 to 16 pixels, from at most 4095 back; a literal is one byte or three. |
| CompressionLaws.CopyInNumbers | src/core/compression.cpp:65-73 | Two bytes lo and hi copy 2 + lo mod 16 bytes, or 1 + lo mod 16 pixels, from 16 hi + lo div 16 back. |
| CompressionLaws.LiteralInNumbers | src/core/compression.cpp:120-124 | One byte stands for itself, three for a pixel with an alpha of 255. |
| CompressionLaws.FlagsSayLiterals | src/core/compression.cpp:57-81 | Bit i of a flag byte, from the lowest on, says whether the i-th token behind it is a literal. |
| CompressionLaws.EightToAFlag | src/core/compression.cpp:57-81 | Behind eight tokens the next flag byte follows. |
| CompressionLaws.UnitsWithin | src/core/compression.cpp:55-81 | A run is done if and only if some tokens complete the size with the last of them, and then gives as many units as they stand for; it leaves the output if and only if a token in front of that reaches too far back. |
| CompressionLaws.ErrorsOfLzss | src/core/compression.cpp:38-84 | Which input gives which error: in header, size and output each an if-and-only-if. |
| CompressionLaws.ErrorsOfLzss32 | src/core/compression.cpp:91-142 | The same for pictures. |
| CompressionLaws.SizeOfArchive | src/core/compression.cpp:47-51 | The archive size is right if and only if the first four bytes, the lowest first, count the archive, and it is below 2 GiB. |
| Compression.DecompressLzss32 | src/core/compression.cpp:91-142 | The byte loops compute the flattening of a decoder over pixels. |
| Compression.DecompressGroup32 | src/core/compression.cpp:114-136 | The inner loop over the tokens of one flag byte: more to come, all of the output, or an error. |
| Compression.TakeLiteral | src/core/compression.cpp:120-124 | Three bytes and an alpha of 255 are one more pixel. |
| Compression.TakeCopy | src/core/compression.cpp:125-133 | The offset in bytes is the distance in pixels; a copy from in front of the output is none. |
| Compression.CopyBytes | src/core/compression.cpp:70-77 | The in-place copy loop is the unit-wise copy. |
| Compression.CopyPixels | src/core/compression.cpp:126-132 | Copying byte by byte across the growing buffer copies whole pixels. |
| Archives.DecompressEncoded | src/core/compression.cpp:38-84 | The archive of any valid token list decompresses to its expansion, whatever follows in the body. |
| Archives.DecompressedIff | src/core/compression.cpp:38-84 | A nonempty input decompresses to a string if and only if it is an archive of tokens that stand for it. |
| Archives.ArchiveSizes | src/core/compression.cpp:38-84 | Success implies tokens <= output <= 8 * (archive - 8). |
| Archives.EveryStringHasArchive | src/core/compression.cpp:38-84 | Every byte string, up to the size field, has an archive that decompresses to it. |
| Archives.Decompressed32Iff | src/core/compression.cpp:91-142 | The same characterisation for pictures. |
| Archives.PictureAlpha | src/core/compression.cpp:107-141 | The length is a multiple of four, and every byte at index 3 mod 4 is 255 if and only if no copy has distance zero. |
| M6Machine.EmittedIsThere | src/vm/vm.cpp:353-370 | Code that was emitted behind other code is what the machine reads at that byte, instruction by instruction. |
| M6Machine.WidthIsOperands | src/vm/instruction.hpp:37-141 | Every instruction is one byte of opcode and its operands, field by field, or one byte where there is no field. |
| M6Context.StmtGrows | src/m6/codegen.cpp:106-206 | No statement changes a constant or a slot that was given out; names become known exactly as the text says, and every slot belongs to one name. |
| M6Laws.StmtTidy | src/m6/codegen.cpp:115-197 | Whatever is compiled, no string comes into the pool twice, and every slot fits in the two bytes of its operand. |
| M6Laws.StoreTidy | src/m6/codegen.cpp:187-197 | The 65536th local name gets a slot, the one behind it is an error and emits nothing. |
| M6Correct.ExprRuns | src/m6/codegen.cpp:208-279 | For every expression whose calls fit, in place anywhere in the code, from every state: the machine leaves the stack as it was with the value of the expression on top and the world changed as its evaluation changes it, or raises the same exception. |
| M6Calls.ValueIfCallsFit | src/vm/vm.cpp:614-621 | The calls have to fit: on a machine whose callees put any number of arguments in front, the value comes out if and only if they do. |
| M6Calls.ExprHeight | src/vm/function.cpp:149-169 | On that machine every expression ends with one value more and exactly what its calls have left over. |
| M6Calls.CallHeight | src/vm/object.cpp:61-82 | On any machine, what a call that returns leaves: its result and the arguments that the cut counts do not reach. |
| M6Calls.ArgumentsLost | src/vm/value.cpp:205-220 | A call with 256 arguments: the function gets none, and they stay on the stack but for the last. |
| M6Laws.CountsGoRound | src/vm/value.cpp:205-220 | Counts that differ by 256 are the same to the callee, and one below 256 is what it says. |
| M6Correct.InvokeRuns | src/m6/codegen.cpp:258-268 | A call that fits finds function, arguments and keywords under the top, evaluated from left to right. |
| M6Laws.CalleeIsFirst | src/vm/object.cpp:61-82 | A value that stands for itself is what the function finds first; a class or a bound method gives way to its function and its receivers. |
| M6Programs.StoreRuns | src/m6/codegen.cpp:138-156 | The top of the stack goes into the slot of the name, or into the global variable, as the text declares it. |
| M6Programs.AssignRuns | src/m6/codegen.cpp:316-334 | Assignment to a variable, a field and an item, with the order of evaluation, and with what the method of an item assignment leaves on the stack. |
| M6Programs.AugVariableRuns | src/m6/codegen.cpp:336-343 | An augmented assignment to a variable. |
| M6Programs.AugFieldRuns | src/m6/codegen.cpp:344-351 | To a field, whose object is evaluated once. |
| M6Programs.AugItemRuns | src/m6/codegen.cpp:352-362 | To an item, whose container and index are evaluated once; the same is left. |
| M6Statements.StmtRuns | src/m6/codegen.cpp:307-600 | For every statement whose calls fit, however nested: the code ends behind itself with the handlers as they were, the slots holding the variables, and on the stack nothing more than what the methods of item assignments have returned, or raises, or still runs after as many steps as one likes, as the statement does. |
| M6Statements.IfRuns | src/m6/codegen.cpp:365-385 | A branching executes one branch, with what that leaves. |
| M6Statements.LoopRuns | src/m6/codegen.cpp:387-429 | A loop goes round until its condition fails, and what its rounds leave adds up; one that does not end takes ever more steps. |
| M6Laws.NoConditionNeverEnds | src/m6/codegen.cpp:404-429 | A for loop without a condition is left by an exception only. |
| M6Statements.TryRuns | src/m6/codegen.cpp:554-573 | The handler is gone behind the body, and runs with the exception in its variable, and without what the body left, when the body raises. |
| M6Statements.Catches | src/vm/vm.cpp:304-330 | What lay on the stack when the exception was raised is gone, except for the exception. |
| M6Statements.ProgramRuns | src/m6/codegen.cpp:97 | A program executed from its first byte ends with the variables it should have and nothing more on the stack than what the methods of item assignments have returned, or with the exception it does not catch, or not at all. |
| M6Leftovers.ExecCounts | src/vm/object.cpp:135-147 | Operations that count the item assignments which call a method give the same outcomes, and as many values are left as they count, at most as many where exceptions are caught. |
| M6Leftovers.ProgramLeaves | src/vm/object.cpp:135-147 | So a program that catches nothing ends on the machine with exactly one value more for each, and with the stack as it was if and only if there was none. |
| M6Leftovers.RoundsLeave | src/vm/object.cpp:135-147 | A loop that assigns to an item of such an object: one value for every round. |
| M6Generator.CodeGenerator.Patch | src/m6/codegen.cpp:611-629 | The jump that starts at the site gets the distance from behind it to the target, nothing else changes; anything but a jump is refused. |
| M6Generator.CodeGenerator.PatchToEnd | src/m6/codegen.cpp:365-385 | A jump patched to the end of the code goes over exactly the code behind it. |
| M6Generator.CodeGenerator.InternName | src/m6/codegen.cpp:115-124 | The first constant that is the string, or a new one. |
| M6Generator.CodeGenerator.EmitExpr | src/m6/codegen.cpp:208-279 | Appends the code that ExprRuns is about, and nothing before it changes. |
| M6Generator.CodeGenerator.EmitStmt | src/m6/codegen.cpp:307-600 | Emitting jumps to nowhere and patching them appends the code that StmtRuns is about, and nothing before it changes. |
| CodePages.UnpackPacked | src/encodings/cp936.cpp:48-124 | Parity interleaving, skipped trail and lead jump undo for every pair in range. |
| CodePages.Pair936 | src/encodings/cp936.cpp:48-124 | A double-byte character comes back if and only if it is in range and not one of five displaced codes. |
| CodePageRoundTrip.Exchanged936 | src/encodings/cp936.cpp:82-124 | What the five displaced codes come back as. |
| CodePageRoundTrip.ShapeOf936 | src/encodings/cp936.cpp:105-117 | What is written for a pair in range has the lead and trail bytes of a Shift-JIS character, so no trail byte is 7f. |
| CodePageRoundTrip.SixBytes | src/encodings/cp936.cpp:82-124 | Six bytes of which only the first two are a pair in range, to the bytes written for them. |
| CodePages.Extended949 | src/encodings/cp949.cpp:129-215 | Base 177 to base 255 and back in the extended rows, wherever the position is not negative. |
| CodePages.Wansung949 | src/encodings/cp949.cpp:129-215 | Base 94 to base 255 and back in the rows of KS X 1001, as long as there are lead bytes. |
| CodePages.BeforeExtended | src/encodings/cp949.cpp:189-193 | A pair with a negative position turns into another one behind lead byte 81. |
| CodePages.WansungOverflows | src/encodings/cp949.cpp:194-198 | From position 3825 on the packed lead bytes are those of the table, from 6120 on no lead bytes at all. |
| CodePages.UncoveredWritesZero | src/encodings/cp949.cpp:189-193 | The two pairs at position -1 are written with a zero byte. |
| CodePages.Table949 | src/encodings/cp949.cpp:50-127 | A code of the table comes back from its position; every other code of that branch becomes a full-width question mark. |
| CodePages.LowerBoundFinds | src/encodings/cp949.cpp:198-207 | The first position not below the code, for which the source calls std::lower_bound, holds the code if and only if the table does. |
| CodePages.Pair949 | src/encodings/cp949.cpp:129-215 | Every pair from lead byte 80 on comes back if and only if its trail is regular, its row is not too far down, and it is neither displaced nor missing from the table, or it is 8140; which pairs are written with a zero byte, and which without a lead byte. |
| CodePageRoundTrip.Exchanged949 | src/encodings/cp949.cpp:175-193 | What is written for the three displaced codes of KS X 1001: extended syllables. |
| CodePageRoundTrip.ExchangedForTable949 | src/encodings/cp949.cpp:181-211 | The three displaced extended codes are written as if they were codes that only the table can hold. |
| CodePages.Byte1252 | src/encodings/western.cpp:68-92 | Every byte is encoded so that the decoder finds it again, with no zero byte for a byte that is not zero. |
| CodePages.ItalicRoundTrip | src/encodings/western.cpp:43-59 | Italic codes are undone, and decode as the upright character. |
| CodePages.Decoded1252 | src/encodings/western.cpp:43-80 | What every 16-bit code decodes to, by ranges and without recursion. |
| CodePageStrings.JisEncodeString | src/encodings/cp949.cpp:167-215 | Encoded characters, terminator and untouched rest of the buffer, for every string and buffer length; Cp936 likewise. |
| CodePageStrings.JisDecodeString | src/encodings/codepage.cpp:65-82 | Decoded characters, terminator and untouched rest, re-synchronised on lead bytes. |
| CodePageStrings.JisEncodeString1252 | src/encodings/western.cpp:94-105 | Encoded characters and untouched rest, counted in characters, without terminator. |
| CodePageRoundTrip.CharRoundTrip | src/encodings/codepage.cpp:65-82 | What the decoder makes of the bytes of one character, whatever follows. |
| CodePageRoundTrip.EncodedNoZeros | src/encodings/codepage.cpp:65-82 | Encoding never writes a byte that would end the string early. |
| CodePageRoundTrip.StringRoundTrip | src/encodings/codepage.cpp:65-82 | For all strings: decoding what the buffer holds up to its first zero byte gives the string back if and only if every character of it is faithful, a final 8140 of Cp949 included. |
| CodePageRoundTrip.CoveredRoundTrip | src/encodings/codepage.cpp:65-82 | For strings that are written without a zero byte: if and only if every character is faithful. |
| CodePageRoundTrip.UncoveredRoundTrip | src/encodings/cp949.cpp:167-215 | A string that begins with one of the two pairs comes back if and only if it is 8140 alone. |
| CodePageRoundTrip.TooLongDiffers | src/encodings/codepage.cpp:65-82 | Behind a byte that is no lead byte decoding is out of step for good: text longer than what is stored for a string never decodes to it. |
| CodePageRoundTrip.ZeroIffUncovered | src/encodings/cp949.cpp:167-215 | A zero byte is written if and only if one of the two pairs is in the string. |
| CodePageRoundTrip.Encoded1252IsEncoded | src/encodings/western.cpp:94-105 | The encoder of Cp1252, which counts characters, writes what the common encoder would. |
| CodePageRoundTrip.StringRoundTrip1252 | src/encodings/western.cpp:68-105 | Every string comes back from what the encoder of Cp1252 writes. |
| Audio.FadeIsLinear | src/core/audio_player.cpp:42-53 | Sample k is scaled so that the gain is the start volume at the first sample of the fade and moves in equal steps toward the end volume; samples behind its end are left alone. |
| Audio.FadeOverFrames | src/core/audio_player.cpp:42-55 | A fade command over one frame and then the next does what it does over both, and is left with the same state. |
| Audio.EndsAfterSamples | src/core/audio_player.cpp:330-346 | A count of samples ends the playback with the frame that brings the last of them, and leaves the samples alone. |
| Audio.CommandsLeave | src/core/audio_player.cpp:401-412 | Exactly when a command leaves the list. |
| Audio.CommandsInOrder | src/core/audio_player.cpp:401-412 | Each command runs over what those in front of it have made of the frame, and those that stay keep their order. |
| Audio.CommandsSeeWholeFrames | src/core/audio_player.cpp:381-415 | A command sees the frame as the decoder returns it, before it is cut to the window. |
| Audio.SetLoopLocates | src/core/audio_player.cpp:226-236 | Behind SetLoop the player stands in the window: where it stood, with what it had, if that lies in it, else at its front with nothing. |
| Audio.FadeSplits | src/core/audio_player.cpp:42-53 | A fade does not depend on how the samples are cut into frames. |
| Audio.LoadNextProgress | src/core/audio_player.cpp:381-415 | A frame brings samples, ends the playback or brings the decoder nearer to the window, so the loop of LoadPCM ends. |
| Audio.ClipKeeps | src/core/audio_player.cpp:417-439 | Which samples of a frame lie in the window, and when none do. |
| Audio.PullFacts | src/core/audio_player.cpp:143-151 | The loop ends with enough samples or an ended player, and keeps window, volume and what was there. |
| Audio.DrainableReturns | src/core/audio_player.cpp:178-211 | From behind the front of a window, or without one, LoadRemain returns: every round that goes on lowers a measure. |
| AudioSplit.SplitRequest | src/core/audio_player.cpp:125-176 | At every volume one request for a + b emits what two requests emit if and only if the player did not play, or still plays and scaling the leftover again makes no difference, or has ended and kept only silence; for all frame sizes and commands. |
| AudioSplit.SplitWhilePlaying | src/core/audio_player.cpp:125-176 | While it plays on, the second request emits what the single one does with the leftover scaled once more; when that leaves the player ready to play the same is an if and only if as well. |
| AudioSplit.SplitAtTheEnd | src/core/audio_player.cpp:125-176 | When the first request ends the playback, the leftover is exactly what is lost. |
| AudioSplit.LeftoverIsScaledTwice | src/core/audio_player.cpp:153-166 | An input on which the two ways differ: a constant source at half volume. |
| AudioLoop.LoopStep | src/core/audio_player.cpp:381-415 | A frame in a window or in front of it: decoder moves on or back to the front by either way, and the count goes down when a frame starts in front of the last. |
| AudioLoop.FrameStreams | src/core/audio_player.cpp:381-439 | The clipped frame is the next stretch of the periodic stream, an empty one in front of the window. |
| AudioLoopRuns.RunEmitsExpected | src/core/audio_player.cpp:125-176 | Any run emits buffer, periodic stream and silence sample by sample as expected, and when it is terminated. |
| AudioLoopRuns.PeriodicPlayback | src/core/audio_player.cpp:125-176 | All output in a window is what is buffered and then source[lo + (start - lo + k) mod period], for every sequence of requests and frame sizes; start is where the decoder stands in the window, or its front. |
| AudioPasses.EndsWhenCounted | src/core/audio_player.cpp:61-81 | Counting frame starts ends the playback behind the first passes that hold enough passes whose last frame starts behind the front. |
| AudioLoopTimes.LoopTimesPlayback | src/core/audio_player.cpp:274-294 | SetLoopTimes(n), for every decoder, wherever it stands and whatever is buffered: the buffer, the rest of the pass and the first passes among which n count, one more if the rest of the pass does not, one fewer if the next frame cuts in, then silence, terminated exactly when more was asked for; for ever if there are not so many. |
| AudioLoopTimes.LoopTimesPromise | src/core/audio_player.cpp:274-294 | The buffer, the rest of the pass and exactly n passes, for all requests, if and only if all of them count, the rest too; where the next frame cuts in, if and only if exactly one of them does not, and not the last. |
| AudioLoopTimes.NextFrameCutsIn | src/core/audio_player.cpp:274-294 | A player to which that happens when its window is changed. |
| AudioLoopTimes.LoopTimesSteady | src/core/audio_player.cpp:61-81 | Where all frames from the front are alike, this is decided by the rest of the pass, by whether the next frame cuts in, and by whether one frame from the front reaches the end of the window. |
| AudioLoopTimes.LoopTimesNeverEnds | src/core/audio_player.cpp:61-81 | At any volume the playback never ends if and only if the passes that count stay fewer than it takes. |
| AudioUnlooped.UnloopedRequest | src/core/audio_player.cpp:125-176 | One request without a window, at any volume: the material in order, then silence, surplus and location exact. |
| AudioUnlooped.UnloopedRun | src/core/audio_player.cpp:441-443 | Every run, to the end of the material or not: the location moves on by what was heard and stays exact, at every volume; at volume 1 the output is a prefix of buffer and material in order, then silence, and the buffer holds what was decoded and not heard. |
| AudioUnlooped.AllHeard | src/core/audio_player.cpp:125-176 | A run that asks for no more than there is, and whose last request finds the player playing, is material to its last sample. |
| AudioUnlooped.RunAndRemain | src/core/audio_player.cpp:178-211 | Any run and then LoadRemain emit the material exactly once. |
| AudioRemain.RemainReturns | src/core/audio_player.cpp:178-211 | In a window or in front of it, at any volume, LoadRemain returns if and only if the player is behind the front, the next frame starts in front of where the player is, or a loop count ends the playback. |
| AudioRemain.RemainOfPass | src/core/audio_player.cpp:178-211 | Wherever it returns, at any volume: it emits buffer and rest of the pass, the buffer alone if the next frame starts in front of that; it keeps one frame, the first of the next pass or the next one, as the decoder made it, and goes on behind it. |
| AudioRemain.RemainThenRun | src/core/audio_player.cpp:125-211 | Whatever is requested then, sample by sample: the kept frame whole, then the window from there on; nothing from outside the window if and only if the frame lies in it. |
| AudioRemain.KeptFrameIsNotClipped | src/core/audio_player.cpp:178-211 | An input: a window of two samples and frames of three, after LoadRemain a request brings the third. |
| AudioUnlooped.TerminatedStays | src/core/audio_player.cpp:134-175 | A player that does not play emits silence and does not change. |
| AudioPlayerClass.AudioPlayer.constructor | src/core/audio_player.cpp:86-94 | The initial state. |
| AudioPlayerClass.AudioPlayer.LoadPCM | src/core/audio_player.cpp:125-176 | Exactly the requested samples and the whole new state, or the exception and no change. |
| AudioPlayerClass.AudioPlayer.Gather | src/core/audio_player.cpp:143-151 | The frame loop computes the recursion that the theorems are about. |
| AudioPlayerClass.AudioPlayer.LoadNext | src/core/audio_player.cpp:381-415 | Frame and whole new state. |
| AudioPlayerClass.AudioPlayer.RunAll | src/core/audio_player.cpp:401-412 | The commands in order over one frame; finished ones leave the list. |
| AudioPlayerClass.AudioPlayer.ExecuteCommand | src/core/audio_player.cpp:66-74 | Each command's effect on frame, itself and status. |
| AudioPlayerClass.AudioPlayer.FadeSamples | src/core/audio_player.cpp:42-53 | The sample loop computes the fade. |
| AudioPlayerClass.AudioPlayer.LoadRemain | src/core/audio_player.cpp:178-211 | All that is left, or the rest of the pass, and the whole new state, wherever the source returns. |
| AudioPlayerClass.AudioPlayer.DrainFrames | src/core/audio_player.cpp:195-206 | The frame loop computes the recursion that the theorems are about. |
| AudioPlayerClass.AudioPlayer.OnEndOfPlayback | src/core/audio_player.cpp:373-379 | Back to the front of the window, or terminated. |
| AudioPlayerClass.AudioPlayer.SetLoop | src/core/audio_player.cpp:215-236 | Window, and seek to its front exactly when the location lies outside; an empty window throws. Exactly a window behind the end of the material leaves a live player without frames. |
| AudioPlayerClass.AudioPlayer.SetLoopTimes | src/core/audio_player.cpp:274-294 | Old counts leave the list, the window is fixed, and a count that is not negative is appended. |
| AudioPlayerClass.AudioPlayer.Pause | src/core/audio_player.cpp:355-362 | Only a playing player is paused. |
| AudioPlayerClass.AudioPlayer.Unpause | src/core/audio_player.cpp:364-371 | Only a paused player plays on. |
| AudioPlayerClass.AudioPlayer.Terminate | src/core/audio_player.cpp:300-305 | The player is terminated and stays valid. |
| AudioPlayerClass.AudioPlayer.SetVolume | src/core/audio_player.cpp:351 | Nothing but the volume changes. |
| GameexeText.DecimalReadBack | src/utilities/string_utilities.cpp:227-235 | parse_int reads back the decimal form of every 32-bit integer. |
| GameexeText.NumbersAre | src/utilities/string_utilities.cpp:227-235 | A minus sign or none and digits are a number if and only if there is a digit and the value fits, and then it is what the digits count. |
| GameexeText.DigitsByPlace | src/utilities/string_utilities.cpp:227-235 | Digits count by their place. |
| GameexeText.NoNumber | src/utilities/string_utilities.cpp:227-235 | Anything but a digit, except a minus sign in front, makes it no number. |
| GameexeText.TrimCutsSpaces | src/utilities/string_utilities.hpp:187-202 | Trimming takes the spaces on both sides and nothing else, whatever stands between. |
| GameexeText.QuotedReadBack | src/core/gameexe.cpp:231-262 | Reading a quoted and escaped text gives it back and stops behind the closing quote, whatever follows. |
| GameexeValues.ScanPrinted | src/core/gameexe.cpp:222-311 | The scanner finds every printed list of numbers, quoted strings, bare words and empty items, joined by any separators that separate them, up to the end or a comment, and numbers the strings in order. |
| GameexeValues.CommasSeparate | src/core/gameexe.cpp:265-272 | Commas separate all items. |
| GameexeValues.MinusBetweenNumbers | src/core/gameexe.cpp:209-220 | A minus separates two numbers if and only if neither is negative. |
| GameexeValues.SignedNumbers | src/core/gameexe.cpp:166-201 | A digit, or a sign and a digit, behind any spaces begins a number, and with more digits is one. |
| GameexeStore.EmplaceKeepsSorted | src/core/gameexe.cpp:129 | Adding an entry keeps the multimap in key order. |
| GameexeStore.LessIsLexicographic | src/core/gameexe.hpp:151 | The order of keys is that of a dictionary: the first character in which they differ decides, and a beginning is smaller than what goes on. |
| GameexeStore.EmplaceAddsLast | src/core/gameexe.cpp:129 | The entry is the last under its key; no other key changes. |
| GameexeStore.EmplaceAddsOne | src/core/gameexe.cpp:129 | No entry is lost or doubled. |
| GameexeStore.WithoutErases | src/core/gameexe.cpp:328-332 | Erasing a key removes all its entries and no other. |
| GameexeStore.LowerBoundSkipsNothing | src/core/gameexe.cpp:593-596 | Starting at the lower bound skips no key with the prefix. |
| GameexeStore.FilterIterator.constructor | src/core/gameexe.cpp:559-565 | The iterator stands on the first match from its start on, or at the end. |
| GameexeStore.FilterIterator.AdvanceToMatch | src/core/gameexe.cpp:584-588 | Moving to the next match skips none. |
| GameexeStore.FilterIterator.Next | src/core/gameexe.cpp:572-577 | One step takes exactly the first of the remaining matches. |
| GameexeStore.Filter | src/core/gameexe.cpp:572-601 | A walk from begin to end visits exactly the entries of the whole multimap whose key starts with the prefix, in order, each once. |
| GameexeStore.MatchingTakesStarts | src/core/gameexe.cpp:584-588 | What a filter takes are the entries whose key begins with the prefix, stretch by stretch. |
| GameexeStore.VisitedAscend | src/core/gameexe.cpp:593-596 | The keys that it visits ascend in that order. |
| GameexeStore.GetKeyParts | src/core/gameexe.cpp:467-480 | The parts hold no dot, and joined by dots they are the key. |
| GameexeStore.JoinIsInjective | src/core/gameexe.cpp:467-480 | So the parts are determined by the key. |
| GameexeClass.Gameexe.ParseLine | src/core/gameexe.cpp:99-131 | Blank line, faulty line with its error, or one more entry; a line in error changes no entry. |
| GameexeClass.Gameexe.ParseValues | src/core/gameexe.cpp:133-312 | The loop computes the scan that ScanPrinted is about, and the string numbers it uses up. |
| GameexeClass.Gameexe.ReadQuotedText | src/core/gameexe.cpp:231-262 | The quote loop: text and position behind the closing quote, or unterminated. |
| GameexeClass.Gameexe.Ensure | src/core/gameexe.cpp:328-332 | Exactly one list of values, empty, is stored under the key, and the result is its place; every other key is unchanged. |
| GameexeClass.Gameexe.SetIntAt | src/core/gameexe.cpp:354-358 | The key holds exactly the number; every other key is unchanged. |
| GameexeClass.Gameexe.SetStringAt | src/core/gameexe.cpp:348-352 | The key holds exactly the string with a fresh number; every other key is unchanged. |
| GameexeClass.Gameexe.Filter | src/core/gameexe.cpp:344-346 | The entries whose key starts with the prefix. |
| GameexeClass.MarkedKey | src/core/gameexe.cpp:114-116 | A marked key is stored without mark and surrounding spaces. |
| GameexeClass.PrintedLineParses | src/core/gameexe.cpp:99-131 | A printed line, with the mark or without, is read as its key and its values, for every key without '=' that does not look like a mark, a comment or nothing, and every well separated list. |
| GameexeClass.LoadPrintedLine | src/core/gameexe.cpp:99-131 | Parsing it adds exactly that key with exactly those values and changes nothing else. |

## Left out

- The rest of the bytecode parser (GetAssignment, GetData, GetComplexParam, commands), EvaluatePRINT and the debug strings: they add callers of what is modelled.
- The layout of the memory banks, string assignment and the reference iterators: memory is a record of functions.
- The order in which C++ evaluates the two operands of an operator is not fixed by the language; the model evaluates left before right.
- SetPLoop, requests to a live player whose window starts behind the end of the material (the source would wait for a frame for ever), and volumes other than 1 in the theorems about what whole runs emit.
- AudioLoopRuns.PeriodicPlayback: there are no commands, and the volume is 1, as at any other what is left over is scaled by every request that meets it (AudioSplit.SplitWhilePlaying).
- AudioLoopTimes.LoopTimesPlayback: there are no other commands, and the volume is 1 for the same reason.
- AudioRemain.RemainReturns: there are no commands but a loop count; RemainOfPass and RemainThenRun have none, and the volume is 1 in RemainThenRun.
- FadeIn and FadeOut's conversion from milliseconds, float rounding (samples and volumes are reals), player names, mutexes and threads, the decoders themselves and the resampler.
- CodePages.Table949: holds for every increasing table of 679 codes that fall in its branch; the codes themselves are not listed. The search reads one element behind the table for codes above its last; the model finds nothing there.
- CodePageStrings.JisEncodeString: asks for two bytes more than the buffer length it is told, which the last character and the terminator may use.
- CodePageStrings.JisEncodeString1252: asks for two bytes for each character it is told to write.
- The Unicode tables and conversions of all code pages, Cp932, and the branch of Italicise behind a test that already decides it.
- LoadFromFile, FetchValues and the typed accessors of Gameexe, and the wording of its error messages.
- The m6 declarations of functions and classes, import, return, yield, spawn and await, the printing of the interactive mode, and the lexer and parser of m6: one frame is executed, and its code is expressions and the other statements.
- M6Statements.ProgramRuns: ends where an exception leaves the frame; behind that, an item access or a call that raises with no handler left kills its fiber twice, which the source answers with std::logic_error. What a frame returns when it ends is not part of the model either; script code that an operation calls is the operation, so fibers do not switch in between.
- M6Generator.CodeGenerator: instructions are a list with their widths in bytes, not the bytes; code of less than 2 gigabytes, constant numbers that fit in 32 bits, and a machine that is given what the generator emits.
- M6Correct.ExprRuns: asks that the counts of all calls fit in a byte, as everything about m6 statements does; ValueIfCallsFit says that they have to.
