# unwasm core in Dafny

unwasm compiles WebAssembly binary modules ahead of time into PHP classes. This project models the
core of that compiler and of the runtime that the generated code targets, and proves properties of the
model:

- **Byte-level decoding.** Token decodes bytes and LEB128 integers (section 5.2.2 of the WebAssembly
  Core Specification). BinaryParser is a cursor over the module bytes: it reads integers, bytes,
  names and vectors (section 5.1.3), checks section sizes and the module header (section 5.5.16), and
  runs the section loop.
- **Section builders.** These decode types, imports, exports, elements, and function declarations
  paired with code bodies. They include the opcode-to-instruction tables behind
  `FuncsBuilder::expression`.
- **The compile-time operand stack.** ExpressionCompiler keeps parallel stacks of names and types, and
  records the types of locals. The control nodes Block, BranchUncond and BranchCond and the variable
  node LocalSet use it to emit PHP lines.
- **ModuleCompiler's index spaces.** Imports are numbered before definitions. The compiler also numbers
  import modules, splits the class name and checks the start function.
- **Source.** An indentation-tracking text buffer that the compiler writes into.
- **The runtime containers.** TableInst holds callable slots and MemoryInst is a byte memory of 64 KiB
  pages. GlobalInst is a typed value with a count of the sets it still allows.
- **Path normalisation.** `Wasi::resolve` is modelled; the rest of the WASI host is not.

Pure decoding and lowering logic becomes functions over a value cursor `Stream.Cursor`. The decoders
are reference functions, and lemmas prove round trips from encodings and the shapes of what they
accept. Whatever the PHP code changes in place becomes a class with `modifies` clauses, and each such
method is proved against those functions. This covers BinaryParser, the builders' `scan`,
ExpressionCompiler, Source, TableInst, MemoryInst and GlobalInst.

Where the code does something other than what its own comments and its callers expect, the model follows
the code. When the code is evidently wrong, the model gives both the behaviour as written and the
corrected one (see "## Findings"), and the rest of the model uses the corrected one.

Exceptions are values of `Exceptions.Exception`, named after the PHP classes thrown. `PhpError` stands for
the engine's own `Error`, and `ArgumentCountError` and `TypeError` for the engine errors of those
names. A PHP method that throws becomes a member returning `Result`.

## Model

| member | source | states |
|---|---|---|
| Token.AsWrittenAgrees | src/Compiler/Binary/Token.php:96-102 | the decoder as written (loop `while ($raw)`) agrees with LEB128 exactly when the last byte is not the character '0' |
| Token.AsWrittenDropsFortyEight | src/Compiler/Binary/Token.php:96-102 | the one-byte encoding 0x30 of 48 decodes to 48, but to 0 as written |
| Token.UnsignedRange | src/Compiler/Binary/Token.php:96-102 | an unsigned decode of n bytes lies in [0, 2^(7n)) |
| Token.SignedRange | src/Compiler/Binary/Token.php:104-111 | a signed decode of n bytes lies in [-2^(7n-1), 2^(7n-1)) and is negative iff bit 0x40 of the last byte is set |
| Token.EncodeU | src/Compiler/Binary/Token.php:91-114 | the standard unsigned LEB128 encoder (the decoder's inverse) yields a non-empty encoding |
| Token.EncodeS | src/Compiler/Binary/Token.php:91-114 | the standard signed LEB128 encoder yields a non-empty encoding |
| Token.EncodeUWellFormed | src/Compiler/Binary/Token.php:96-102 | every byte of an unsigned encoding but the last has its continuation bit set |
| Token.EncodeSWellFormed | src/Compiler/Binary/Token.php:96-102 | every byte of a signed encoding but the last has its continuation bit set |
| Token.GroupsEncodeU | src/Compiler/Binary/Token.php:100 | the 7-bit payload groups of an unsigned encoding, placed at 7k, sum to the number |
| Token.RoundTripU | src/Compiler/Binary/Token.php:91-114 | the unsigned decode of the encoding of n is n |
| Token.SignEncodeS | src/Compiler/Binary/Token.php:108 | bit 0x40 of the last byte of a signed encoding is set iff the value is negative |
| Token.GroupsEncodeS | src/Compiler/Binary/Token.php:100 | the payload groups of a signed encoding are the value, plus 2^(7n) when negative |
| Token.RoundTripS | src/Compiler/Binary/Token.php:91-114 | the signed decode of the encoding of v is v, so sign extension by -(1<<7n) is right |
| Token.Decode | src/Compiler/Binary/Token.php:63-89 | an unknown type code is an UnexpectedValueException; the int codes give the signed LEB128 value, the uint codes the unsigned, non-negative one; a one-byte BYTE token gives that byte |
| Token.DecodeLeb128 | src/Compiler/Binary/Token.php:91-114 | the loop ORs byte k's low 7 bits in at 7k, front to back, and sign-extends: the result is the LEB128 value |
| Stream.ReadN | src/Compiler/BinaryParser.php:137 | `fread` returns min(n, remaining) bytes, the bytes between the old and new position, and sets eof on a short read |
| Stream.ConsumedConcat | src/Compiler/BinaryParser.php:137 | the bytes consumed by two reads in a row are the concatenation of each read's bytes |
| Stream.ReadNAdvances | src/Compiler/BinaryParser.php:137 | a read only moves forward and, unless the stream is already at its end, lowers the stream's rank |
| Stream.SeekSet | src/Compiler/BinaryParser.php:90 | `fseek` to an offset keeps the bytes, sets the position and clears eof |
| Stream.SeekCur | src/Compiler/BinaryParser.php:96 | a relative `fseek` moves the position by n and clears eof |
| Stream.ExpectByte | src/Compiler/BinaryParser.php:134-152 | a successful read returns `ord` of the next byte (0 at the end) and advances by one read; a failure is RuntimeException("Invalid value") |
| Stream.ExpectByteExact | src/Compiler/BinaryParser.php:143-149 | with a non-zero minimum m, only m is accepted |
| Stream.ExpectByteBounded | src/Compiler/BinaryParser.php:147 | with no minimum, a byte is accepted iff the maximum is 0 (no bound) or the byte does not exceed it |
| Stream.ExpectByteZeroAcceptsAll | src/Compiler/BinaryParser.php:143-149 | `expectByte()` with both bounds 0 never fails |
| Stream.ExpectByteAdvances | src/Compiler/BinaryParser.php:134-152 | expectByte only reads forward |
| Stream.Lex | src/Compiler/BinaryParser.php:212-224 | the lexing loop reads at most `width` bytes |
| Stream.LexAdvances | src/Compiler/BinaryParser.php:212-224 | the lexed bytes are exactly the bytes between the old and new position |
| Stream.LexStopsAtFirstClear | src/Compiler/BinaryParser.php:221-223 | every lexed byte but the last has its high bit set: the loop stops at the first clear one |
| Stream.LexWellFormed | src/Compiler/BinaryParser.php:212-224 | a well-formed encoding lying ahead that fits the width is lexed exactly |
| Stream.ExpectIntWithin | src/Compiler/BinaryParser.php:206-240 | a failure is RuntimeException("Invalid integer provided"); an unsigned result is non-negative; the read only moves forward |
| Stream.ExpectIntDecodes | src/Compiler/BinaryParser.php:226-239 | the read fails iff the last lexed byte has its high bit set, and otherwise yields the LEB128 value of the lexed bytes |
| Stream.ExpectIntAtEnd | src/Compiler/BinaryParser.php:213-239 | at the end of the stream expectInt yields 0 and sets eof without failing |
| Stream.StandardU32Encoding | src/Compiler/BinaryParser.php:209-213 | the standard encoding of a u32 fits a 32-bit read (at most 5 bytes) |
| Stream.ExpectU32Held | src/Compiler/BinaryParser.php:206-240 | any accepted u32 encoding lying ahead is read back, the stream moving past it |
| Stream.ExpectWithinHeld | src/Compiler/BinaryParser.php:206-240 | a well-formed encoding no longer than the width is read back as its LEB128 value |
| Stream.ExpectByteHeld | src/Compiler/BinaryParser.php:134-152 | a byte lying ahead that the bounds accept is returned, the stream moving one on |
| Stream.ExpectSHeld | src/Compiler/BinaryParser.php:206-240 | a signed encoding lying ahead that fits the width is read back as its value |
| Stream.StandardS32Encoding | src/Compiler/BinaryParser.php:209-213 | the standard signed encoding of an i32 fits a 32-bit read |
| Stream.StandardS33Encoding | src/Compiler/BinaryParser.php:209-213 | the standard signed encoding of a u32 fits a 33-bit read |
| Stream.StandardS64Encoding | src/Compiler/BinaryParser.php:209-213 | the standard signed encoding of an i64 fits a 64-bit read |
| Stream.EncodeULength | src/Compiler/BinaryParser.php:209-213 | a value below 2^(7k) takes at most k bytes |
| Stream.EncodeSLength | src/Compiler/BinaryParser.php:209-213 | a signed value in [-2^(7k-1), 2^(7k-1)) takes at most k bytes |
| Stream.ExpectIntAsWrittenRejects | src/Compiler/BinaryParser.php:209-213 | as written (at most bits/8 = 4 bytes for 32 bits), the 5-byte encoding of 2^28 is rejected, while the corrected width reads it |
| Stream.LexFourContinuations | src/Compiler/BinaryParser.php:213-229 | four continuation bytes exhaust the as-written width, leaving a last byte with its high bit set |
| Stream.EncodeTwoPow28 | src/Compiler/BinaryParser.php:209-213 | 2^28 encodes as 80 80 80 80 01 |
| Stream.TwoPow28Accepted | src/Compiler/BinaryParser.php:209-213 | those five bytes are an encoding of 2^28 that a corrected 32-bit read accepts |
| Stream.Utf8SeqLen | src/Compiler/BinaryParser.php:180 | the UTF-8 sequence at the front is at most 4 bytes and no longer than the input |
| Stream.AsciiIsUtf8 | src/Compiler/BinaryParser.php:180 | bytes below 0x80 are valid UTF-8 |
| Stream.ExpectString | src/Compiler/BinaryParser.php:166-191 | a result is valid UTF-8; a failure is the length's integer error or UnexpectedValueException("Invalid utf8 string") |
| Stream.ExpectStringReads | src/Compiler/BinaryParser.php:166-191 | the string is the bytes right after the length, as many as the length says when the stream holds them |
| Stream.ReadManyHeld | src/Compiler/BinaryParser.php:173 | a read of bytes the stream holds returns them |
| Stream.ExpectStringParts | src/Compiler/BinaryParser.php:166-191 | the string is read as its length, then its bytes |
| Stream.ExpectStringHeld | src/Compiler/BinaryParser.php:166-191 | a valid UTF-8 name lying ahead, length first, is read back |
| Stream.ExpectFloat | src/Compiler/BinaryParser.php:193-204 | bits/8 raw bytes at most are read, forward |
| Stream.VectorFrom | src/Compiler/BinaryParser.php:159-161 | the element loop from index i appends size-i elements to what it has |
| Stream.VectorFromStep | src/Compiler/BinaryParser.php:159-161 | one iteration calls the element function at index i and appends its value |
| Stream.Vector | src/Compiler/BinaryParser.php:154-164 | a vector has exactly as many elements as the u32 count read first |
| Stream.VectorFromAdvances | src/Compiler/BinaryParser.php:159-161 | with forward-only element functions the loop reads forward |
| Stream.VectorAdvances | src/Compiler/BinaryParser.php:154-164 | expectVector reads forward |
| Stream.VectorFromElement | src/Compiler/BinaryParser.php:159-161 | element k is what the element function decodes at index k from where the first k elements left the stream (VectorCursor) |
| Stream.VectorElement | src/Compiler/BinaryParser.php:154-164 | every element k of a vector is the element function's value at index k, read where the first k elements left the stream after the count |
| Stream.AssertSizeChecks | src/Compiler/BinaryParser.php:242-256 | a non-zero size is accepted iff the body read exactly that many bytes; a size of 0 is never checked |
| Stream.ScanHeader | src/Compiler/BinaryParser.php:109-123 | the header is accepted iff the stream holds "\0asm" and a little-endian version 1, and then the stream is 8 bytes on; otherwise InvalidArgumentException |
| Parser.BinaryParser.constructor | src/Compiler/BinaryParser.php:47-49 | a parser stands at position 0 of its stream, eof clear (the rewind of `scan`) |
| Parser.BinaryParser.Read | src/Compiler/BinaryParser.php:173 | `fread` returns and moves exactly as Stream.ReadN says |
| Parser.BinaryParser.Seek | src/Compiler/BinaryParser.php:90 | the stream ends up where Stream.SeekSet puts it |
| Parser.BinaryParser.Skip | src/Compiler/BinaryParser.php:96 | the stream ends up where Stream.SeekCur puts it |
| Parser.BinaryParser.Commit | src/Compiler/BinaryParser.php:67-107 | the stream is moved to the given cursor over the same bytes |
| Parser.BinaryParser.Position | src/Compiler/BinaryParser.php:125-132 | the position of the stream |
| Parser.BinaryParser.Eof | src/Compiler/BinaryParser.php:258-261 | the end-of-file flag |
| Parser.BinaryParser.ScanHeader | src/Compiler/BinaryParser.php:109-123 | succeeds and moves the stream iff Stream.ScanHeader accepts, otherwise raises its error |
| Parser.BinaryParser.ExpectByte | src/Compiler/BinaryParser.php:134-152 | returns the value and leaves the stream as Stream.ExpectByte does, or raises the same error |
| Parser.BinaryParser.ExpectAnyByte | src/Compiler/BinaryParser.php:134-152 | with no bounds the call never fails and reads one byte |
| Parser.BinaryParser.ExpectInt | src/Compiler/BinaryParser.php:206-240 | the lexing loop and the check of the last byte agree with Stream.ExpectInt (corrected width) |
| Parser.BinaryParser.ExpectString | src/Compiler/BinaryParser.php:166-191 | agrees with Stream.ExpectString |
| Parser.BinaryParser.ExpectFloat | src/Compiler/BinaryParser.php:193-204 | agrees with Stream.ExpectFloat |
| Parser.BinaryParser.ExpectVector | src/Compiler/BinaryParser.php:154-164 | the for loop calls the element decoder for i = 0 .. count-1 and agrees with Stream.Vector |
| Parser.BinaryParser.SizeHeader | src/Compiler/BinaryParser.php:244-245 | the declared size and the start position, or the size's read error |
| Parser.BinaryParser.CheckSize | src/Compiler/BinaryParser.php:250-253 | succeeds iff the size is 0 or the body took exactly the size; otherwise UnexpectedValueException with the mismatch message |
| Scanner.Dispatch | src/Compiler/BinaryParser.php:85-96 | each supported id goes to its builder, an unsupported one is skipped by its size; only the position moves, never the bytes |
| Scanner.SectionBody | src/Compiler/BinaryParser.php:80-98 | the closure breaks (None) exactly when the size is 0 |
| Scanner.StepProgress | src/Compiler/BinaryParser.php:77-103 | a pass that does not end the loop strictly lowers the stream's rank, so the loop terminates |
| Scanner.EmptySectionEnds | src/Compiler/BinaryParser.php:82-102 | a section of size 0 ends the loop with the module as it is |
| Scanner.EndOfStreamEnds | src/Compiler/BinaryParser.php:77-103 | at the end of the stream the id and size read as 0 and the loop stops without error |
| Scanner.UnknownSectionSkipped | src/Compiler/BinaryParser.php:94-96 | a section id no builder supports is skipped by its declared size, leaving the module unchanged |
| Scanner.StepSized | src/Compiler/BinaryParser.php:242-255 | once the id and the size are read, a pass is the section body followed by assertSize's check that it read exactly the declared size |
| Scanner.SizedSection | src/Compiler/BinaryParser.php:247-253 | on the parser, a non-empty section's body and then the size check agree with SizedBody: its contents and position, or the builder's error, or the size mismatch |
| Scanner.Section | src/Compiler/BinaryParser.php:85-96 | the builder that supports the id updates the compiler and function builder exactly as Dispatch describes |
| Scanner.Pass | src/Compiler/BinaryParser.php:78-102 | one loop pass on the parser agrees with Step: Ok(true) and the new contents when a section was read, Ok(false) and nothing changed when its size is 0, or the same error |
| Scanner.Scan | src/Compiler/BinaryParser.php:67-107 | `scan` returns a fresh module compiler whose contents are what ScanModule computes, or ScanModule's error |
| TypesBuilder.ValueTypeElem | src/Compiler/Binary/TypesBuilder.php:68-70 | an entry of a result type is the next byte as a value type, unchecked, one byte on |
| TypesBuilder.ValueTypeReadsForward | src/Compiler/Binary/TypesBuilder.php:68-70 | the value type decoder reads forward |
| TypesBuilder.ResultTypeAdvances | src/Compiler/Binary/TypesBuilder.php:66-71 | resulttype reads forward |
| TypesBuilder.FuncTypeOf | src/Compiler/Binary/TypesBuilder.php:55-61 | a function type that does not start with 0x60 is RuntimeException("Invalid value") |
| TypesBuilder.FuncTypeAdvances | src/Compiler/Binary/TypesBuilder.php:55-61 | functype reads forward |
| TypesBuilder.FuncTypeReadsForward | src/Compiler/Binary/TypesBuilder.php:48-50 | the type section's element decoder reads forward |
| TypesBuilder.Codes | src/Compiler/Binary/TypesBuilder.php:68-70 | the encoding of value types is one code byte each, in order |
| TypesBuilder.ValueTypesFrom | src/Compiler/Binary/TypesBuilder.php:68-70 | the element loop reads value types back from their codes |
| TypesBuilder.ResultTypeRoundTrip | src/Compiler/Binary/TypesBuilder.php:66-71 | a result type (any accepted count encoding, then the codes) is read back exactly, the stream moving past it |
| TypesBuilder.FuncTypeParts | src/Compiler/Binary/TypesBuilder.php:55-61 | a function type is read as 0x60, the inputs, the outputs |
| TypesBuilder.FuncTypeRoundTrip | src/Compiler/Binary/TypesBuilder.php:55-61 | the encoding of a function type (0x60 and two result types) is read back exactly |
| TypesBuilder.LimitsOf | src/Compiler/Binary/TypesBuilder.php:93-99 | the flag must be at most 1, else RuntimeException("Invalid value"); the maximum is present iff the flag is 1 |
| TypesBuilder.LimitsParts | src/Compiler/Binary/TypesBuilder.php:93-99 | the limits are the flag, the minimum then, with flag 1, the maximum |
| TypesBuilder.LimitsWithoutMaximum | src/Compiler/Binary/TypesBuilder.php:93-99 | flag 0 and an encoded minimum read back as limits without maximum |
| TypesBuilder.LimitsWithMaximum | src/Compiler/Binary/TypesBuilder.php:93-99 | flag 1, a minimum and a maximum read back as those limits |
| TypesBuilder.LimitsAdvances | src/Compiler/Binary/TypesBuilder.php:93-99 | limits reads forward |
| TypesBuilder.TableTypeOf | src/Compiler/Binary/TypesBuilder.php:73-78 | a table type is the next byte as a reference type, then the limits; errors are the limits' RuntimeException |
| TypesBuilder.TableTypeAdvances | src/Compiler/Binary/TypesBuilder.php:73-78 | tabletype reads forward |
| TypesBuilder.MemTypeOf | src/Compiler/Binary/TypesBuilder.php:80-83 | a memory type is exactly the limits |
| TypesBuilder.GlobalTypeOf | src/Compiler/Binary/TypesBuilder.php:85-91 | the mutability byte must be at most 1, else RuntimeException("Invalid value"); the global is mutable iff it is 1 |
| TypesBuilder.GlobalTypeAdvances | src/Compiler/Binary/TypesBuilder.php:85-91 | globaltype reads forward |
| TypesBuilder.Scan | src/Compiler/Binary/TypesBuilder.php:43-53 | the module's types become the vector of function types, leaving imports, functions, exports, elements and start alone |
| ImportsBuilder.DescOf | src/Compiler/Binary/ImportsBuilder.php:50-69 | kind 0 reads a type index, 1 a table type, 2 a memory type, 3 a global type, and the result carries that kind; a kind above 3 is ParsingException("Invalid import type") |
| ImportsBuilder.ImportOf | src/Compiler/Binary/ImportsBuilder.php:44-72 | an import has UTF-8 module and field names; its errors are the readers' RuntimeException or UnexpectedValueException |
| ImportsBuilder.DescAdvances | src/Compiler/Binary/ImportsBuilder.php:50-69 | a description reads forward |
| ImportsBuilder.ImportAdvances | src/Compiler/Binary/ImportsBuilder.php:44-72 | an import reads forward |
| ImportsBuilder.ImportReadsForward | src/Compiler/Binary/ImportsBuilder.php:44-72 | the import vector's element decoder reads forward at every index |
| ImportsBuilder.ImportParts | src/Compiler/Binary/ImportsBuilder.php:45-47 | an import is read as module name, field name, kind byte (at most 3), then the description |
| ImportsBuilder.FuncImportRoundTrip | src/Compiler/Binary/ImportsBuilder.php:51-53 | the encoding of a function import (two names, kind 0, type index) is read back exactly |
| ImportsBuilder.Scan | src/Compiler/Binary/ImportsBuilder.php:41-75 | the imports become the decoded vector, in declaration order, leaving the rest of the module alone |
| ExportsBuilder.KindOf | src/Compiler/Binary/ExportsBuilder.php:50-65 | a kind byte is accepted iff it is at most 3, and maps to Func, Table, Mem or Global in that order; otherwise ParsingException("Invalid export type") |
| ExportsBuilder.ExportOf | src/Compiler/Binary/ExportsBuilder.php:44-68 | an export has a UTF-8 name; its errors are the readers' |
| ExportsBuilder.ExportAdvances | src/Compiler/Binary/ExportsBuilder.php:44-68 | an export reads forward |
| ExportsBuilder.ExportReadsForward | src/Compiler/Binary/ExportsBuilder.php:44-68 | the export vector's element decoder reads forward at every index |
| ExportsBuilder.ExportParts | src/Compiler/Binary/ExportsBuilder.php:45-47 | an export is read as name, kind byte, then the index, the index for every kind |
| ExportsBuilder.ExportRoundTrip | src/Compiler/Binary/ExportsBuilder.php:44-68 | the encoding of an export (name, kind byte, index) is read back exactly |
| ExportsBuilder.Scan | src/Compiler/Binary/ExportsBuilder.php:41-71 | the exports become the decoded vector, in declaration order, leaving the rest of the module alone |
| ElemsBuilder.FuncRefItem | src/Compiler/Binary/ElemsBuilder.php:83-85 | a non-expression item is exactly one ref.func node, read forward |
| ElemsBuilder.ExprItem | src/Compiler/Binary/ElemsBuilder.php:79-81 | an expression item is read forward |
| ElemsBuilder.ItemsReadForward | src/Compiler/Binary/ElemsBuilder.php:79-85 | both item decoders read forward |
| ElemsBuilder.TableIdxOf | src/Compiler/Binary/ElemsBuilder.php:53-65 | the table index defaults to 0 and is read only for an active segment with bit 1 set |
| ElemsBuilder.OffsetOf | src/Compiler/Binary/ElemsBuilder.php:54-70 | the offset expression is present iff the segment is active |
| ElemsBuilder.KindOf | src/Compiler/Binary/ElemsBuilder.php:73-75 | the kind byte is read (any value passes) only when present |
| ElemsBuilder.InitOf | src/Compiler/Binary/ElemsBuilder.php:78-86 | without bit 2 the items are the vector of function indices |
| ElemsBuilder.SegmentFits | src/Compiler/Binary/ElemsBuilder.php:89-95 | the constructed segment is active if bit 0 is clear, else declarative if bit 1 is set, else passive; only an active one has a table index and offset |
| ElemsBuilder.ElemWith | src/Compiler/Binary/ElemsBuilder.php:50-96 | a segment's mode fits its flag byte (at most 7), and a flag error is expectByte's |
| ElemsBuilder.ElemOfAsWritten | src/Compiler/Binary/ElemsBuilder.php:50-96 | elem as written (kind byte only for flags 1 and 5) reads forward |
| ElemsBuilder.ElemOf | src/Compiler/Binary/ElemsBuilder.php:50-96 | a flag above 7 is RuntimeException("Invalid value"); otherwise the segment's mode, table index and offset are those its flag bits select |
| ElemsBuilder.ElemReadsForward | src/Compiler/Binary/ElemsBuilder.php:43-45 | the element vector's decoder reads forward |
| ElemsBuilder.FuncRefItems | src/Compiler/Binary/ElemsBuilder.php:83-85 | without bit 2 every init item of a decoded segment is a single ref.func |
| ElemsBuilder.Refs | src/Compiler/Binary/ElemsBuilder.php:83-85 | one ref.func item per function index |
| ElemsBuilder.FuncRefHeld | src/Compiler/Binary/ElemsBuilder.php:84 | an encoded function index lying ahead reads back as its ref.func item |
| ElemsBuilder.FuncRefsFrom | src/Compiler/Binary/ElemsBuilder.php:83-85 | the vector loop reads encoded indices back as their ref.func items |
| ElemsBuilder.FuncRefsRoundTrip | src/Compiler/Binary/ElemsBuilder.php:83-85 | a vector of encoded function indices is read back as ref.func items |
| ElemsBuilder.ElemParts | src/Compiler/Binary/ElemsBuilder.php:50-96 | a segment is its flag, table index, offset, kind byte and items, in that order |
| ElemsBuilder.InactiveBits | src/Compiler/Binary/ElemsBuilder.php:58-73 | flags 1 and 3 are inactive function-index segments whose kind byte the binary format has; the source reads it only for flag 1 |
| ElemsBuilder.ActiveBits | src/Compiler/Binary/ElemsBuilder.php:58-60 | flag 0 is active, implicit table, function indices, no kind byte |
| ElemsBuilder.InactiveRoundTrip | src/Compiler/Binary/ElemsBuilder.php:50-96 | a passive (flag 1) or declarative (flag 3) segment of function indices is read back exactly |
| ElemsBuilder.ActiveRoundTrip | src/Compiler/Binary/ElemsBuilder.php:50-96 | an active segment for table 0 (flag 0) is read back exactly: offset, then indices |
| ElemsBuilder.DeclarativeKindSkipped | src/Compiler/Binary/ElemsBuilder.php:73-75 | as written, the bytes 03 00 01 05 give an empty declarative segment and leave two bytes unread |
| ElemsBuilder.DeclarativeKindRead | src/Compiler/Binary/ElemsBuilder.php:73-75 | read with the kind byte, the same bytes give one ref.func 5 and are all consumed |
| ElemsBuilder.Scan | src/Compiler/Binary/ElemsBuilder.php:38-48 | the element segments become the decoded vector, leaving the rest of the module alone |
| FuncsBuilder.TypeIdxElem | src/Compiler/Binary/FuncsBuilder.php:101-103 | an entry of the function section is a u32 type index, read forward |
| FuncsBuilder.LocalsRun | src/Compiler/Binary/FuncsBuilder.php:110-114 | a run of locals (a count, then a value type expanded to that many copies) reads forward |
| FuncsBuilder.LocalsRunAsWritten | src/Compiler/Binary/FuncsBuilder.php:112 | as written, every run of locals fails: `TypesBuilder::valuetype` is not defined |
| FuncsBuilder.CodeBody | src/Compiler/Binary/FuncsBuilder.php:108-119 | a decoded body exists only for an index the function section reached, and carries the type index recorded there |
| FuncsBuilder.CodeElem | src/Compiler/Binary/FuncsBuilder.php:107-120 | code entry i, size-checked, gets `funcTypes[i]` as its type |
| FuncsBuilder.TypeIdxReadsForward | src/Compiler/Binary/FuncsBuilder.php:101-103 | the function section's element decoder reads forward |
| FuncsBuilder.CodeReadsForward | src/Compiler/Binary/FuncsBuilder.php:107-120 | the code section's element decoder reads forward |
| FuncsBuilder.CodePairsTypes | src/Compiler/Binary/FuncsBuilder.php:99-118 | body k of a decoded code section has the type index the function section recorded at index k |
| FuncsBuilder.Builder.constructor | src/Compiler/Binary/FuncsBuilder.php:96-99 | a new builder has no type indices yet |
| FuncsBuilder.Builder.Expression | src/Compiler/Binary/FuncsBuilder.php:125-146 | the loop on the shared parser returns what the Instructions.Expr decoder computes (the instructions up to the terminator) and leaves the stream where it does, or raises its error |
| FuncsBuilder.Builder.Structured | src/Compiler/Binary/FuncsBuilder.php:170-184 | block, loop and if read a blocktype and recurse with the same terminator, agreeing with Instructions.ControlInstr |
| FuncsBuilder.Builder.Scan | src/Compiler/Binary/FuncsBuilder.php:96-123 | the first call stores the type indices; later calls pair body i with type index i into the module's functions and keep the indices; an error leaves both as they were |
| Instructions.U32 | src/Compiler/Binary/FuncsBuilder.php:189 | an unsigned immediate reads forward; its error is "Invalid integer provided" |
| Instructions.Reserved | src/Compiler/Binary/FuncsBuilder.php:386-388 | the reserved byte after a bulk-memory opcode is one unchecked read |
| Instructions.ValueTypeAsWritten | src/Compiler/Binary/FuncsBuilder.php:112-153 | the call of the undefined `TypesBuilder::valuetype` always fails with a PHP Error |
| Instructions.RefTypeAsWritten | src/Compiler/Binary/FuncsBuilder.php:629 | the call of the undefined `TypesBuilder::reftype` always fails with a PHP Error |
| Instructions.ValueTypeOf | src/Compiler/Binary/FuncsBuilder.php:112 | the corrected value type read is one type byte, one byte on |
| Instructions.RefTypeOf | src/Compiler/Binary/FuncsBuilder.php:629 | the corrected reference type read is one type byte, one byte on |
| Instructions.RawValueType | src/Compiler/Binary/FuncsBuilder.php:153 | a raw blocktype value names a value type iff it is the signed one-byte encoding (code - 128) of a value type code |
| Instructions.ParseBlocktypeAsWritten | src/Compiler/Binary/FuncsBuilder.php:148-158 | as written, only -64 (the byte 0x40) succeeds, with the empty signature |
| Instructions.ParseBlocktype | src/Compiler/Binary/FuncsBuilder.php:148-158 | -64 gives the empty signature, a value type code a signature with that one result, a non-negative value a type index; any other value is the TypeError of a function that returns nothing |
| Instructions.VarInstr | src/Compiler/Binary/FuncsBuilder.php:225-260 | the variable family answers exactly the opcodes 0x20 .. 0x26, reading forward |
| Instructions.MemArg | src/Compiler/Binary/FuncsBuilder.php:272-273 | a memory argument reads forward |
| Instructions.MemoryInstr | src/Compiler/Binary/FuncsBuilder.php:262-397 | the memory family answers exactly the opcodes 0x28 .. 0x40, reading forward |
| Instructions.ConstInstr | src/Compiler/Binary/FuncsBuilder.php:399-427 | the constant family answers exactly 0x41 .. 0x44, reading forward |
| Instructions.CompInstr | src/Compiler/Binary/FuncsBuilder.php:429-527 | the comparison family answers exactly 0x45 .. 0x66, always with a comparison node |
| Instructions.ComputeInstr | src/Compiler/Binary/FuncsBuilder.php:529-623 | the arithmetic family answers only opcodes in 0x6A .. 0xA3, with an arithmetic node |
| Instructions.SecondaryInstr | src/Compiler/Binary/FuncsBuilder.php:639-688 | the 0xFC sub-switch knows 8 .. 17; any other secondary opcode is "Unknown secondary opcode n" |
| Instructions.MiscInstr | src/Compiler/Binary/FuncsBuilder.php:625-695 | only 0xD0, 0xD1, 0xD2 and 0xFC decode; any other opcode is "Unknown opcode 0xNN@0xPPPPPPPP" |
| Instructions.ReturnAsWritten | src/Compiler/Binary/FuncsBuilder.php:196-198 | as written, opcode 0x0F always fails with an ArgumentCountError |
| Instructions.ControlInstr | src/Compiler/Binary/FuncsBuilder.php:160-223 | the control family answers exactly its fourteen opcodes, reading forward; the typed `select` reads its types with the corrected reader of the Findings row for line 216 |
| Instructions.TypedSelectAsWrittenFails | src/Compiler/Binary/FuncsBuilder.php:214-218 | as written a typed select decodes only an empty type vector, and any entry raises the undefined-method Error |
| Instructions.TypedSelectDecoded | src/Compiler/Binary/FuncsBuilder.php:214-218 | with the value types read, a typed select yields exactly the types its vector encodes, one byte each after the count |
| Instructions.InstrOf | src/Compiler/Binary/FuncsBuilder.php:136-144 | the families, tried in order, read forward |
| Instructions.Expr | src/Compiler/Binary/FuncsBuilder.php:125-146 | the expression reads forward; at the end of the stream it falls off the function and is a TypeError |
| Instructions.CmpOpcodesExact | src/Compiler/Binary/FuncsBuilder.php:429-527 | compInstr gives comparison k on type t for exactly the opcodes of that comparison in the binary format, both signed and unsigned ones for an integer ordering |
| Instructions.SignednessDropped | src/Compiler/Binary/FuncsBuilder.php:447-565 | the signed and unsigned opcodes of an integer ordering give the same node |
| Instructions.NarrowLoadShape | src/Compiler/Binary/FuncsBuilder.php:291-339 | 0x2C .. 0x35 fix the type, the width (8/16/32) and the signedness (signed for even opcodes) |
| Instructions.LoadNodeInjective | src/Compiler/Binary/FuncsBuilder.php:271-339 | distinct load opcodes give distinct nodes |
| Instructions.MemArgReads | src/Compiler/Binary/FuncsBuilder.php:272-273 | a memory argument reads the alignment, drops it, then reads the offset |
| Instructions.UnknownOpcodeThrows | src/Compiler/Binary/FuncsBuilder.php:690-692 | an opcode no family knows raises the exception naming it and its byte's position |
| Instructions.ExprStopsAtTerminator | src/Compiler/Binary/FuncsBuilder.php:129-134 | the terminator opcode returns the instructions read so far, one byte on |
| Instructions.ExprAppends | src/Compiler/Binary/FuncsBuilder.php:136-144 | any other opcode's instruction is appended and the expression continues after it |
| Instructions.ReturnDecoded | src/Compiler/Binary/FuncsBuilder.php:196-198 | the code 0F 0B decodes to a lone return, while the source's `new BranchUncond()` fails |
| Instructions.ValueBlocktype | src/Compiler/Binary/FuncsBuilder.php:148-158 | the blocktype byte 0x7F gives a signature with one i32 result, while the source's call fails |
| Stack.FreshNames | src/Compiler/ExpressionCompiler.php:69-71 | the n names the counter gives from `start`: `$stack_start`, `$stack_start+1`, ... in order |
| Stack.StackNamesDiffer | src/Compiler/ExpressionCompiler.php:70 | different counter values give different names, so fresh names never collide |
| Stack.SuffixStart | src/Compiler/ExpressionCompiler.php:86-107 | the offset `-cnt` starts at most at the end of the list |
| Stack.Top | src/Compiler/ExpressionCompiler.php:87-107 | the top cnt entries (all of them for -0 or an over-long count), exactly cnt when the stack holds them |
| Stack.Below | src/Compiler/ExpressionCompiler.php:86-87 | what pop leaves below, followed by what it returns, is the old list |
| Stack.TopAll | src/Compiler/ExpressionCompiler.php:86-87 | a count of 0 (PHP's -0) or above the height takes the whole stack |
| Stack.FirstMismatch | src/Compiler/ExpressionCompiler.php:117-122 | none iff every type matches; otherwise a type of the list that differs |
| Stack.ExpressionCompiler.constructor | src/Compiler/ExpressionCompiler.php:33-41 | an empty stack, the counter at 1, no locals, the given chain of return maps |
| Stack.ExpressionCompiler.Get | src/Compiler/ExpressionCompiler.php:43-47 | pushes `$local_i` with the local's recorded type; an unrecorded local fails and changes nothing |
| Stack.ExpressionCompiler.Set | src/Compiler/ExpressionCompiler.php:49-53 | records the local's type and returns `$local_i`, the stack untouched |
| Stack.ExpressionCompiler.Const | src/Compiler/ExpressionCompiler.php:55-59 | pushes the literal and its type without advancing the counter |
| Stack.ExpressionCompiler.Push | src/Compiler/ExpressionCompiler.php:66-77 | appends one fresh name per type and the types; the counter goes up by the number of types; returns the new names |
| Stack.ExpressionCompiler.Pop | src/Compiler/ExpressionCompiler.php:84-88 | removes the top cnt entries from both lists and returns their names, bottom to top |
| Stack.ExpressionCompiler.Type | src/Compiler/ExpressionCompiler.php:95-98 | the top cnt types, the stack unchanged |
| Stack.ExpressionCompiler.Peek | src/Compiler/ExpressionCompiler.php:105-108 | the top cnt names, the stack unchanged |
| Stack.ExpressionCompiler.Typed | src/Compiler/ExpressionCompiler.php:115-123 | succeeds iff every one of the top cnt types is t; otherwise InvalidArgumentException naming the first mismatch |
| Stack.ExpressionCompiler.Count | src/Compiler/ExpressionCompiler.php:128-131 | the stack height |
| Stack.ExpressionCompiler.Return | src/Compiler/Node/Code/Control/BranchUncond.php:43 | the return map `depth` contexts out, or NoSuchContext beyond the outermost one (an extension of the class shown) |
| Control.Assignments | src/Compiler/Node/Code/Control/Block.php:97-101 | one assignment line per return variable |
| Control.AssignmentAt | src/Compiler/Node/Code/Control/Block.php:97-101 | the k-th line assigns the k-th stack variable to the k-th return variable, null past the end of the stack |
| Control.CompileReturn | src/Compiler/Node/Code/Control/Block.php:95-102 | appends exactly those assignment lines at the current indentation |
| Control.CompileBranchUncond | src/Compiler/Node/Code/Control/BranchUncond.php:40-53 | pops as many entries as the target has results, assigns them in order, then writes `continue depth+1;`; fails, changing nothing, when no context is that far out |
| Control.CompileBranchCond | src/Compiler/Node/Code/Control/BranchCond.php:40-62 | pops exactly the condition and, inside `if (cond) { }`, assigns the peeked top to the target's return variables without popping them, then `continue;` at depth 0 or `continue depth+1;` |
| Control.CompileLocalSet | src/Compiler/Node/Code/Variable/LocalSet.php:44-60 | records the top's type for the local, writes `$local_i = top;`, and pops unless tee; no type check; an empty stack fails |
| Control.FirstMismatchPair | src/Compiler/Node/Code/Control/Block.php:78-81 | the first position where two type lists differ, if any |
| Control.ChildContext | src/Compiler/Node/Code/Control/Block.php:74-93 | the child accepts iff the top entries have the input types in order, last input on top, and then gets their names and types; otherwise InvalidArgumentException |
| Control.ContextAsWritten | src/Compiler/Node/Code/Control/Block.php:78-90 | as written, every child entry is named "Array" |
| Control.ContextAsWrittenRejectsValid | src/Compiler/Node/Code/Control/Block.php:78-81 | an (i32, i64) block over an i32 then an i64 is rejected as written and accepted by the corrected context |
| Control.ContextAsWrittenNamesArray | src/Compiler/Node/Code/Control/Block.php:80-90 | as written a single input's child entry is "Array", not the stack variable |
| Control.Combine | src/Compiler/Node/Code/Control/Block.php:84 | `array_combine`: each fresh output name with its type, in order |
| Control.NewContext | src/Compiler/Node/Code/Control/Block.php:87-90 | a fresh child context whose stack is the given entries, pushed with `const` |
| Control.CreateContext | src/Compiler/Node/Code/Control/Block.php:74-93 | the inputs move from the parent to the child; the parent gains one fresh variable per output, which the child's return map assigns; a rejected context leaves the parent unchanged |
| Control.BlockSignature | src/Compiler/Node/Code/Control/Block.php:51 | the block's own signature when present, else the module type its index names; only then can the block compile |
| Control.CodeTexts | src/Compiler/Node/Code/Control/Block.php:52 | the decimal text of each type code, in order |
| Control.BlockHeaderAsWritten | src/Compiler/Node/Code/Control/Block.php:52 | interpolating a signature fails iff there is one, since FuncType has no string conversion |
| Control.BlockAsWrittenNeverCompiles | src/Compiler/Node/Code/Control/Block.php:51-54 | as written no block compiles: with a signature the header fails, without one createContext refuses the null |
| Control.NoEolAppend | src/Compiler/Source.php:86-91 | two strings without line ends join into one without |
| Control.JoinNoEol | src/Compiler/Source.php:86-91 | joining line-end-free parts gives a line-end-free string |
| Control.CodeTextsNoEol | src/Compiler/Node/Code/Control/Block.php:52 | no type code text holds a line end |
| Control.BlockHeaderOneLine | src/Compiler/Node/Code/Control/Block.php:52 | the corrected opening line is one line |
| Control.CompileInstr | src/Compiler/Node/Code/Control/Block.php:55-58 | compiling one instruction only appends to the source and keeps its indentation |
| Control.CompileBody | src/Compiler/Node/Code/Control/Block.php:55-65 | after the instructions' text, the fall-through writes one `to = from;` line per return variable of the context, from the top entries its stack then holds, and nothing after a final BranchUncond, Return or Unreachable; an empty body leaves the stack as it began; the indentation is kept |
| Control.OpenBlock | src/Compiler/Node/Code/Control/Block.php:52-54 | writes the opening line, indents one level, and builds the child context as ChildContext says |
| Control.CloseBlock | src/Compiler/Node/Code/Control/Block.php:67-71 | outdents one level and writes `} while (0);` and an empty line |
| Control.CompileBlock | src/Compiler/Node/Code/Control/Block.php:49-72 | the block is wrapped in `do { ... } while (0);` with indentation balanced; inside, the instructions' text is followed by the fall-through assignment to the fresh output variables, from the moved inputs when the body is empty; the parent's stack loses the inputs and gains the outputs; without a signature it fails |
| Control.BlockInside | src/Compiler/Node/Code/Control/Block.php:55-71 | the body with its fall-through one level in, then one level out and the closing lines |
| Control.EmptyBlockAssigns | src/Compiler/Node/Code/Control/Block.php:60-65 | an empty block assigns output j the input the pop returns at position j: the last inputs in order, or input j and then null when there are more outputs than inputs |
| Compiler.ImportsOf | src/Compiler/ModuleCompiler.php:80-133 | the filter keeps at most the imports there are |
| Compiler.ImportsOfKind | src/Compiler/ModuleCompiler.php:80-82 | every entry of the filtered list is an import of the kind, taken from the import list |
| Compiler.ImportsOfPrefix | src/Compiler/ModuleCompiler.php:80-82 | when the first n imports are of the kind they are the first n filtered entries |
| Compiler.All | src/Compiler/ModuleCompiler.php:84-137 | the list without an index is the imports of the kind followed by the module's own entities |
| Compiler.AtAgreesWithAll | src/Compiler/ModuleCompiler.php:78-141 | the corrected indexed lookup finds what the full list has at that position: imports first, then definitions, each in declaration order |
| Compiler.AtImportsFirst | src/Compiler/ModuleCompiler.php:88-89 | an index below the import count selects the idx-th import of the kind, any other valid one the definition idx - count |
| Compiler.AsWrittenAgreesWhenFirst | src/Compiler/ModuleCompiler.php:80-89 | the lookup as written (original keys kept by array_filter) is right when the imports of the kind come first |
| Compiler.AsWrittenMissesLaterImport | src/Compiler/ModuleCompiler.php:80-89 | with a global import before a function import, `func(0)` as written yields null instead of the function import |
| Compiler.StartCheck | src/Compiler/ModuleCompiler.php:363-378 | no start function (-1) passes; a start function passes iff its type has no inputs, a RuntimeException otherwise |
| Compiler.FirstOccurrencesUnique | src/Compiler/ModuleCompiler.php:146-149 | the first-occurrence numbering of module names is unique |
| Compiler.LastIndexOf | src/Compiler/ModuleCompiler.php:182 | `strrpos`: the last position holding the character, or none |
| Compiler.SplitFqcn | src/Compiler/ModuleCompiler.php:177-186 | one leading backslash is dropped and the name splits at its last backslash into namespace and class, none when there is no backslash after position 0 |
| Compiler.SplitJoined | src/Compiler/ModuleCompiler.php:177-186 | a namespaced name, with or without a leading backslash, splits back into its namespace and class |
| Compiler.HeaderLines | src/Compiler/ModuleCompiler.php:171-194 | the header lines: strict types, the namespace if any, the class line and its brace |
| Compiler.ModuleCompiler.constructor | src/Compiler/ModuleCompiler.php:43-73 | an empty module whose start is -1 |
| Compiler.ModuleCompiler.PrepareImportRefs | src/Compiler/ModuleCompiler.php:146-149 | each distinct module name gets the index of its first import, nothing else changes |
| Compiler.ModuleCompiler.CompileHeader | src/Compiler/ModuleCompiler.php:171-194 | writes the header lines and indents one level |
| Compiler.ModuleCompiler.CompileStart | src/Compiler/ModuleCompiler.php:363-378 | fails iff the start check fails; writes the call of the start function only when there is one that passes |
| NodeType.InRangeIff | src/Compiler/Node/Type/Limits.php:44 | k is in range iff minimum <= k and, when the maximum is truthy, k <= maximum |
| NodeType.ZeroMaximumUnbounded | src/Compiler/Node/Type/Limits.php:44 | a maximum of 0 bounds nothing |
| NodeType.ParamNamesDiffer | src/Compiler/Node/Type/FuncType.php:56-64 | different indices give different names |
| NodeType.CompileOutput | src/Compiler/Node/Type/FuncType.php:56-64 | one name `$prefix{i}` per output, in order |
| NodeType.CompileInput | src/Compiler/Node/Type/FuncType.php:66-91 | one name per input |
| NodeType.CompileInputNames | src/Compiler/Node/Type/FuncType.php:72-88 | untyped names are exactly `$prefix{i}`; typed ones get `int ` for int, uint and byte codes, `float ` for float codes, nothing otherwise |
| NodeType.CompileInputDistinct | src/Compiler/Node/Type/FuncType.php:66-91 | the parameter names are pairwise distinct, typed or not |
| NodeType.HintedNamesDiffer | src/Compiler/Node/Type/FuncType.php:72-88 | a hint followed by a name determines the index |
| NodeType.DollarAfterHint | src/Compiler/Node/Type/FuncType.php:72-88 | the `$` of a name sits right after its hint |
| SourceText.Overwrite | src/Compiler/Source.php:57 | `fwrite` on the temp stream overwrites from the position and extends the buffer only past its end |
| SourceText.Put | src/Compiler/Source.php:57 | one character written overwrites or extends by one |
| SourceText.OverwriteAt | src/Compiler/Source.php:57 | character by character, a write puts the string at its run and leaves every other position as it was |
| SourceText.OverwriteParts | src/Compiler/Source.php:57 | after a write the buffer is the old bytes before the position, the string, then the old bytes beyond it |
| SourceText.OverwriteAtEnd | src/Compiler/Source.php:57 | a write at the end appends |
| SourceText.OverwriteTwice | src/Compiler/Source.php:86-89 | two writes in a row are one write of both strings |
| SourceText.LineEnds | src/Compiler/Source.php:79-92 | every write ends with a line end |
| SourceText.LineIndented | src/Compiler/Source.php:86-89 | a write with arguments is 4·indentation spaces, the concatenated strings, then EOL |
| SourceText.WriteStep | src/Compiler/Source.php:79-92 | one more write extends the text written so far by one line |
| SourceText.LastNewline | src/Compiler/Source.php:102-108 | the last line end before a position, if any |
| SourceText.RevertUndoesLine | src/Compiler/Source.php:99-111 | after writing a string whose only line end is its last character over a buffer ending in a complete line, reverting moves the position back to where the string began |
| SourceText.RevertUndoesWrite | src/Compiler/Source.php:99-111 | reverting right after a line was written over a buffer ending in a complete line moves the position back to where that line began |
| SourceText.Source.constructor | src/Compiler/Source.php:27-35 | an empty buffer at position 0 and indentation 0 |
| SourceText.Source.Read | src/Compiler/Source.php:42-46 | returns everything written, in order |
| SourceText.Source.Raw | src/Compiler/Source.php:55-60 | overwrites the string at the position and moves past it; at the end it appends |
| SourceText.Source.Write | src/Compiler/Source.php:79-92 | writes one line (a bare EOL for no arguments) at the position; at the end it appends |
| SourceText.Source.WriteEach | src/Compiler/Source.php:79-92 | several writes in order put out their lines one after the other |
| SourceText.Source.Indent | src/Compiler/Source.php:120-125 | adds the step to the indentation, the text unchanged |
| SourceText.Source.Outdent | src/Compiler/Source.php:136-146 | succeeds iff the step does not exceed the indentation, which then drops by it; otherwise LogicException with the source's message; the text unchanged |
| SourceText.Source.Revert | src/Compiler/Source.php:99-111 | moves the position back to just after the last line end before the final character; with none the loop never ends (Diverges) |
| Text.NatToString | src/Compiler/ExpressionCompiler.php:70 | the decimal text of a natural is a non-empty run of digits |
| Text.ParseNatToString | src/Compiler/ExpressionCompiler.php:70 | reading the decimal text back gives the number |
| Text.NatToStringInjective | src/Compiler/ExpressionCompiler.php:70 | distinct naturals render as distinct strings |
| Text.PrefixedNatInjective | src/Compiler/ExpressionCompiler.php:70 | a prefix followed by a number determines the number |
| Text.Hex | src/Compiler/Binary/FuncsBuilder.php:692 | `dechex` gives a non-empty string |
| Text.Repeat | src/Compiler/Source.php:69 | n copies of the value |
| Text.PadLeft | src/Compiler/Binary/FuncsBuilder.php:691-692 | left padding reaches the width and ends in the string |
| Store.OverwrittenAt | src/Runtime/TableInst.php:121-124 | slot by slot, the written run reads back as the data, every other slot keeps its value, the length is unchanged |
| Store.OverwrittenPointwise | src/Runtime/TableInst.php:121-124 | a sequence agreeing slot by slot with the overwrite is the overwrite (the per-element loop equals the bulk write) |
| Store.OverwrittenSlice | src/Runtime/TableInst.php:121-124 | the written run reads back exactly |
| Store.TableInst.constructor | src/Runtime/TableInst.php:36-44 | records the maximum; `minimum` null slots, or none when the constructor's grow is refused |
| Store.TableInst.Get | src/Runtime/TableInst.php:46-55 | the slot at the offset; OutOfBoundsException at or past the size |
| Store.TableInst.Set | src/Runtime/TableInst.php:57-66 | only the slot at the offset changes, to the value; past the end it throws and nothing changes |
| Store.TableInst.Size | src/Runtime/TableInst.php:68-71 | the number of slots |
| Store.TableInst.Grow | src/Runtime/TableInst.php:73-88 | refused iff a maximum exists and the new size passes it (-1, nothing changes); otherwise `n` copies of `init` appended and the old size answered |
| Store.TableInst.Fill | src/Runtime/TableInst.php:90-101 | in bounds, the run holds the value and the rest is unchanged; past the end it throws and nothing changes |
| Store.TableInst.Overwrite | src/Runtime/TableInst.php:114-125 | in bounds, the run holds the data and the rest is unchanged; past the end it throws and nothing changes |
| Store.TableInst.Copy | src/Runtime/TableInst.php:103-112 | the destination run holds the source run as it was before the copy, also when source and destination are one table; either run past its end throws and nothing changes; another source table is untouched |
| Store.CopiedRun | src/Runtime/TableInst.php:103-112 | after a copy each destination slot in the run reads the matching source slot, and every other slot its old value |
| Store.Zeros | src/Runtime/MemoryInst.php:75 | `n` zero bytes |
| Store.ZerosAppend | src/Runtime/MemoryInst.php:81-89 | page after page of zeros is one run of zeros |
| Store.FillBytes | src/Runtime/MemoryInst.php:101 | `n` bytes, each `value` modulo 256, for every sign of `value` |
| Store.ReadAt | src/Runtime/MemoryInst.php:121-128 | in bounds the stored slice; never more than `n` bytes |
| Store.WriteThenRead | src/Runtime/MemoryInst.php:107-128 | reading the range just written gives the data back |
| Store.WriteKeepsOthers | src/Runtime/MemoryInst.php:107-119 | a write leaves the bytes outside its range as they were |
| Store.UnboundedGrowRefusedAsWritten | src/Runtime/MemoryInst.php:70 | as written, a memory with no maximum refuses every growth to a non-zero size, while the table's check lets it grow |
| Store.BoundedGrowAgrees | src/Runtime/MemoryInst.php:70 | under a maximum the check as written and the corrected one agree |
| Store.InBoundsCopyRefusedAsWritten | src/Runtime/MemoryInst.php:133 | as written, a one-byte copy to offset 2 of a one-page memory is refused although both runs are in bounds |
| Store.CopyCheckStricterAsWritten | src/Runtime/MemoryInst.php:133 | the check as written refuses every copy the corrected check refuses |
| Store.MemoryInst.constructor | src/Runtime/MemoryInst.php:46-57 | `minimum` zeroed pages (none if the maximum refuses them), the buffer exactly that long |
| Store.MemoryInst.Size | src/Runtime/MemoryInst.php:59-62 | the page count, which times the page size is the buffer length |
| Store.MemoryInst.Grow | src/Runtime/MemoryInst.php:64-96 | refused (-1, nothing changes) iff a maximum exists and is passed; otherwise `pages` zeroed pages appended, the size raised by `pages`, the old size answered |
| Store.MemoryInst.Fill | src/Runtime/MemoryInst.php:98-105 | in bounds, the run holds `value` mod 256 and nothing else changes; past the last page it throws and nothing changes |
| Store.MemoryInst.Write | src/Runtime/MemoryInst.php:107-119 | in bounds, the data overwrites its run and nothing else changes; past the last page it throws and nothing changes |
| Store.MemoryInst.Read | src/Runtime/MemoryInst.php:121-128 | the stored bytes from the offset, cut at the buffer's end |
| Store.MemoryInst.Copy | src/Runtime/MemoryInst.php:130-139 | with both runs measured in bytes: in bounds, the destination run holds the source run as before the copy; otherwise it throws and nothing changes |
| Runtime.Mutated | src/Runtime/GlobalInst.php:85-89 | a count of 0 refuses with "This global is immutable", a number is decremented, null allows the set and stays null |
| Runtime.UnlimitedSets | src/Runtime/GlobalInst.php:85-89 | a null count allows any number of sets |
| Runtime.ExhaustedRefuses | src/Runtime/GlobalInst.php:85-89 | a count of 0 refuses every run of sets |
| Runtime.OneSetOnly | src/Runtime/GlobalInst.php:85-89 | a count of 1 allows a run of sets iff it has at most one set |
| Runtime.MutabilityInvertedAsWritten | src/Runtime/GlobalInst.php:49 | as written, a mutable global refuses its second set and an immutable one allows every set |
| Runtime.MutabilityHonoured | src/Runtime/GlobalInst.php:49 | with the corrected count, a mutable global allows every set and an immutable one exactly one |
| Runtime.GlobalInst.constructor | src/Runtime/GlobalInst.php:43-50 | the kind tag, zero values, a null reference, and the corrected count for the mutability |
| Runtime.GlobalInst.GetInt | src/Runtime/GlobalInst.php:52-59 | the int value for kinds 'i' and 'I', otherwise LogicException with the source's message |
| Runtime.GlobalInst.GetFloat | src/Runtime/GlobalInst.php:61-68 | the float value for kinds 'f' and 'F', otherwise LogicException |
| Runtime.GlobalInst.GetRef | src/Runtime/GlobalInst.php:70-77 | the reference for kind 'r', otherwise LogicException |
| Runtime.GlobalInst.CountSet | src/Runtime/GlobalInst.php:85-89 | the count steps as Mutated says; a refused set leaves it; no value changes |
| Runtime.GlobalInst.SetInt | src/Runtime/GlobalInst.php:79-92 | a wrong kind throws first and nothing changes; an exhausted count throws and nothing changes; otherwise the value is stored and the count steps; the other slots unchanged |
| Runtime.GlobalInst.SetFloat | src/Runtime/GlobalInst.php:94-107 | as SetInt, for the float kinds |
| Runtime.GlobalInst.SetRef | src/Runtime/GlobalInst.php:109-122 | as SetInt, for the reference kind |
| Wasi.TrimRight | src/Runtime/Wasi.php:703 | a prefix of the input that ends in neither separator |
| Wasi.Slashes | src/Runtime/Wasi.php:704 | the same length, every backslash turned into a slash and every other character kept |
| Wasi.Split | src/Runtime/Wasi.php:709 | at least one piece, no piece holding a slash |
| Wasi.Resolve | src/Runtime/Wasi.php:700-718 | the joined, trimmed, slash-normalised path walked part by part, with the root taken before the trim |
| Wasi.WalkClean | src/Runtime/Wasi.php:709-715 | walking separator-free parts keeps the part list clean |
| Wasi.ResolvedClean | src/Runtime/Wasi.php:709-715 | a resolved path holds no '.', '..', empty part or separator inside a part |
| Wasi.WalkOfClean | src/Runtime/Wasi.php:712-714 | clean parts are pushed as they are |
| Wasi.UpUndoes | src/Runtime/Wasi.php:710-711 | '..' undoes the part before it and does nothing at the root |
| Wasi.SplitJoin | src/Runtime/Wasi.php:709 | splitting the slash-joined parts gives them back when none holds a slash |
| Wasi.ResolvedShape | src/Runtime/Wasi.php:707-717 | a resolved path is "" or "/" followed by clean parts joined by '/' |
| Wasi.ResolveBare | src/Runtime/Wasi.php:700-718 | "" and "/" resolve to themselves |
| Wasi.ResolveParts | src/Runtime/Wasi.php:700-718 | a root followed by clean parts resolves to itself |
| Wasi.ResolveIdempotent | src/Runtime/Wasi.php:700-718 | resolving a resolved path gives it back |
| Wasi.RootLostAsWritten | src/Runtime/Wasi.php:703-707 | as written "/" resolves to "" while "/.." resolves to "/"; with the root taken before the trim "/" stays "/" |

## Left out

- Floating point: `expectFloat` and Token's `unpack('g')` keep only the raw bytes and bits of a float. No IEEE 754 interpretation, float arithmetic, casts or promotion is modelled.
- `echo` progress output of the builders and the compiler is not modelled (I/O).
- src/Wasm.php, the filesystem and memory caches, src/Compiler/TextParser.php and src/Compiler/Text are not part of this model. They are I/O, `eval`/`include`, and PCRE lexing.
- src/Runtime/Environment.php, src/Runtime/Module.php and src/Runtime/ModuleImport.php are not part of this model (dynamic dispatch and registry plumbing).
- Everything in src/Runtime/Wasi.php except `resolve` is not part of this model (file descriptors, `stat`, `realpath`, random numbers).
- Wasi.Resolve: `DIRECTORY_SEPARATOR` is taken as '/' (a POSIX host).
- The sections handled by GlobalsBuilder, DatasBuilder, the function/table/memory sections and the start section (ids 4, 5, 6, 8 and 11) are a parameter of the scanner (`Scanner.OtherFn`). Their builders are not part of this model.
- Instruction nodes other than Block, BranchUncond, BranchCond and LocalSet are decoded into `Ast.Instr` but not compiled. Their compile methods follow the same pop/push/emit pattern. Loop.php also calls an undefined `transfer()`.
- Thin data holders (the Store, External and Type nodes other than Limits and FuncType, and Func.php) are datatypes without behaviour. Element.php ignores its `mode` argument; the model keeps the builder's mode in `Ast.Element`.
- Stack: the parent context and `return(depth)` that Block, BranchUncond and BranchCond call are not in the ExpressionCompiler shown. They are modelled as an extension: a child context holds its return chain, a list of (name, type) lists, one per enclosing block. The three-argument child constructor is therefore not the source's own.
- Stack.ExpressionCompiler.Get: `get` of a local whose type was never recorded reads PHP's null type. The model returns an error for it instead of pushing a null type.
- Compiler: `compile()` run a second time (its import-module numbering runs again) is not modelled. Import refs are prepared once.
- SourceText: compiling a node after `revert` has moved the position into the middle of the buffer is not modelled. Node compilation writes at the end of the buffer.
- SourceText.Source.Revert: when the buffer holds no line end before its last character, the source's seek loop never ends. The model reports that case as `Diverges` instead of looping.
- Offsets, counts and sizes are natural numbers in the model, so negative arguments are not modelled: PHP integers are 64-bit signed, and the runtime containers accept negative offsets.
- Store.MemoryInst.Grow: the failure path of `fwrite` returning fewer bytes than a page is not modelled, because writes to a `php://temp` stream do not fail short of memory exhaustion.
- Store.MemoryInst.Read: PHP 8's ValueError for `fread` of length 0 is not modelled; a read of 0 bytes answers the empty string.
- Stream: a read at the end of the stream answers "" and sets the end flag, as PHP's stream layer does; the cursor models no other stream state.
- Token.DecodeLeb128: decodes into unbounded integers. PHP's 64-bit shifts lose bits past 63 and give 0 for shifts of 64 or more, so only encodings of at most 9 bytes are sure to agree. The 10-byte encodings of 64-bit values are not modelled at PHP's width.

## Findings

| source | as written | input that shows it | evidently intended | confidence | as-written member | corrected member |
|---|---|---|---|---|---|---|
| src/Compiler/Binary/Token.php:96 | `while ($raw)` ends the loop when the remaining string is "0", so a final byte 0x30 is never decoded | the one-byte LEB128 encoding `30` (48) decodes as 0 | loop while bytes remain | not executed | Token.AsWrittenDropsFortyEight | Token.AsWrittenAgrees |
| src/Runtime/GlobalInst.php:49 | `mutateCnt` is 1 for a mutable global and null for an immutable one | a mutable global refuses its second `setInt`; an immutable one accepts every set | a mutable global allows every set, an immutable one only its initialising set | not executed | Runtime.MutabilityInvertedAsWritten | Runtime.MutabilityHonoured |
| src/Runtime/MemoryInst.php:70 | `$prev + $pages > $this->maximum` without a null guard; against null PHP compares booleans | `new MemoryInst(1)` (no maximum) stays at 0 pages; any `grow(1)` answers -1 | the table's check: refuse only under a maximum | not executed | Store.UnboundedGrowRefusedAsWritten | Store.BoundedGrowAgrees |
| src/Runtime/MemoryInst.php:133 | the destination run is compared with `size()`, the page count, not the byte size | `copy(0, 2, 1)` on a one-page memory throws OutOfBoundsException | both runs measured against `size() * PAGE_SIZE` | not executed | Store.InBoundsCopyRefusedAsWritten | Store.CopyCheckStricterAsWritten |
| src/Compiler/ModuleCompiler.php:80-89 | `array_filter` keeps the original keys, so `$funcImports[$idx]` misses when another kind of import comes first | imports (global, func): `func(0)` finds nothing instead of the function import | index the filtered list by position (`array_values`) | not executed | Compiler.AsWrittenMissesLaterImport | Compiler.AtAgreesWithAll |
| src/Compiler/Node/Code/Control/Block.php:78-90 | the parent's top is checked against the input types in reverse, and the array returned by `pop()` is passed to `const`, which names it "Array" | inputs (i32, i64) over a parent stack (i32, i64) are rejected; a single i32 input is re-added under the name "Array" | check the top n types in order and re-add each popped name; the corrected context also refuses a stack holding fewer entries than the inputs (InvalidArgumentException "Stack underflow"), where as written `typed` passes on a short stack and `pop()` returns an empty array | not executed | Control.ContextAsWrittenRejectsValid | Control.CreateContext |
| src/Compiler/BinaryParser.php:209-213 | at most `$bits / 8` bytes are read, 4 for a 32-bit integer | the five-byte encoding `80 80 80 80 01` of 2^28 is rejected | at most ceil(bits / 7) bytes, as LEB128 allows | not executed | Stream.ExpectIntAsWrittenRejects | Stream.ExpectU32Held |
| src/Compiler/Binary/FuncsBuilder.php:112, 153 | `TypesBuilder::valuetype` and `TypesBuilder::reftype` are called but TypesBuilder does not define them (the typed `select` at line 216 is the next row) | the blocktype byte `7F` (an i32 result) fails with an undefined-method Error | decode the value type of the byte | not executed | Instructions.ParseBlocktypeAsWritten | Instructions.ValueBlocktype |
| src/Compiler/Binary/FuncsBuilder.php:216 | the typed `select` (0x1C) reads each entry of its type vector with the undefined `TypesBuilder::valuetype` | a typed select with one or more types fails with an undefined-method Error; only an empty type vector decodes | decode the value types of the vector, as the type section does | not executed | Instructions.TypedSelectAsWrittenFails | Instructions.TypedSelectDecoded |
| src/Compiler/Binary/FuncsBuilder.php:197 | opcode 0x0F (return) builds `new BranchUncond()` without its required depth | the code `0F 0B` raises an ArgumentCountError | a return instruction | not executed | Instructions.ReturnAsWritten | Instructions.ReturnDecoded |
| src/Compiler/Node/Code/Control/Block.php:52 | the header interpolates the FuncType object, which has no `__toString` | every block with a signature fails with an Error when compiled | render the signature as text | not executed | Control.BlockAsWrittenNeverCompiles | Control.BlockHeaderOneLine |
| src/Compiler/Binary/ElemsBuilder.php:73 | the elemkind byte is read only for flags 1 and 5 | flag 3 with bytes `03 00 01 05` gives an empty declarative segment and leaves two bytes unread | read the elemkind or reftype whenever `flag & 3 != 0` | not executed | ElemsBuilder.DeclarativeKindSkipped | ElemsBuilder.DeclarativeKindRead |
| src/Runtime/Wasi.php:702-707 | the root is read off the path after `rtrim` | "/" resolves to "" while "/.." resolves to "/" | read the root before trimming | not executed | Wasi.RootLostAsWritten | Wasi.ResolveIdempotent |
