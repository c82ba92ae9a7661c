# Alien Soldier disassembly tools, modelled in Dafny

The Alien Soldier source repository holds a Mega Drive disassembly and the
Python scripts that maintain it. This project models the pure logic of those
scripts and proves properties of it:

- **The tile decompressor.** `unpack_tiles` in scripts/split.py and its older
  twin `unpack` in unpacker.py decode an LZ-plus-RLE format. A block has a
  two-byte big-endian size, then control bytes of five families: back-reference,
  alternating run, byte run, pattern run and literal run. The two copies differ
  only in the back-reference distance formula. Modules `TileDecoder`,
  `TileOpcodes`, `TileDecoderProps`.
- **The `dc.b`/`dc.w`/`dc.l` readers.** `parse_dc_value` and `parse_dc_line`
  of scripts/split_data.py and scripts/convert_tiles.py, with Python's `int()`
  spelled out. Modules `Numerals`, `DcValues`, `DcLines`.
- **Block grouping and splicing.** `split_data_blocks` and
  `replace_with_binclude` (modules `DataBlocks`, `Binclude`), and the inline
  extraction and descending splice of scripts/convert_tiles.py (`TileConvert`).
- **asm_fixer.py helpers.** `parse_array_int`, `parse_array`, `parse_struct`,
  `fix_dcb`, `get_rom_start` and `get_rom_end` (`AsmFixer`).
- **Procedure window extraction and display**, from scripts/get_procedure.py
  (`ProcedureWindow`).
- **The first-difference ROM comparison** of scripts/compare.py (`RomCompare`).
- **The analysis report.** Scene intervals, change-type classification and
  report layout of scripts/report.py (`TasScenes`, `DiffAnalysis`,
  `AnalysisReport`). The report parser of scripts/extract_visual_procs.py,
  proved to read back what the report writes (`VisualProcs`).
- **The procedure database.** The row transforms of update_database,
  cleanup_database and prepare_batch (`ProcedureDatabase`).

`Bytes`, `Text`, `Seqs`, `Sorting`, `Arithmetic` and `Results` are shared
helpers: big-endian numbers, Python string functions, list loops, a stable
insertion sort, and the `Result`/`Option` types.

Files are sequences of lines, CSV files are sequences of records, and the ROM
is a byte sequence. What the scripts take from the file system is passed in as
a parameter: the image analysers of report.py are two functions, and a
directory is its existence flag plus its listing. The models follow the code
where it differs from the format's usual reading:

- The decode loop's guard `idx <= len(arr)` lets a cursor equal to the block
  length into the loop, and the next read fails (`CursorAtEndExample`).
- The size header bounds only the opcode positions, so operands past it are
  still read (`OperandsPastDeclaredSizeExample`).
- asm_fixer.py is read as Python 2 code. It concatenates `struct.pack` results
  to a `str`, and its `int()` takes no digit-group underscores (`AsmFixer.Py2Int`).

## Model

| member | source | states |
|---|---|---|
| TileDecoder.Classify | scripts/split.py:19-68 | The nested bit tests select the family by the top three bits: bit 7 set is a back-reference, then 011 alternating, 001 byte run, 010 pattern, 000 literal; the count fields are in range |
| TileDecoder.Distance | scripts/split.py:21-27 | Either distance formula, with its 16-bit mask, gives a distance between 1 and 1024 |
| TileDecoder.CopyFrom | scripts/split.py:28-33 | The byte-at-a-time window copy keeps the output and appends the periodic extension of the window, also when it reads bytes it has just written |
| TileDecoder.BackRefOp | scripts/split.py:19-33 | A back-reference succeeds exactly when its operand byte exists and the distance is within the output; it then keeps the output and appends the periodic copy; otherwise it reports truncation at the block end or the bad distance |
| TileDecoder.AlternatingOp | scripts/split.py:35-46 | Succeeds exactly when all `cnt + 2` operand bytes are in the block; the output grows by `2 * (cnt + 1)` bytes, alternating the fixed byte with the fresh ones |
| TileDecoder.ByteRunOp | scripts/split.py:47-54 | Succeeds exactly when the operand exists; every appended byte equals it, `cnt + 1` of them, and the cursor moves by 2 |
| TileDecoder.PatternOp | scripts/split.py:55-65 | Succeeds exactly when both operands exist; appended bytes alternate between them, starting with the first, `cnt + 1` pairs |
| TileDecoder.LiteralOp | scripts/split.py:66-73 | Succeeds exactly when `cnt + 1` bytes follow; they are appended verbatim and in order |
| TileDecoder.Step | scripts/split.py:17-75 | One turn of the loop advances the cursor by at least 2 and by the opcode's length, keeps the earlier output, keeps `idx_res == len(res)`, and fails only by truncation at the block end or a bad distance |
| TileDecoder.Run | scripts/split.py:17-75 | The loop only appends to its output; truncation is reported at the block end; a declared size reaching the block end always fails |
| TileDecoder.DeclaredSize | scripts/split.py:14 | The size is the block's first two bytes read big-endian |
| TileDecoder.Decode | scripts/split.py:9-17 | A block shorter than two bytes fails as truncated; a declared size at or past the block length always fails |
| TileDecoder.UnpackTiles | scripts/split.py:7-17 | `unpack_tiles` is the block decoder with the split.py distance on the ROM from the address; an address within two bytes of the end fails as truncated |
| TileDecoder.Unpack | unpacker.py:24-33 | `unpack` is the block decoder with the unpacker.py distance on the ROM from the address; an address within two bytes of the end fails as truncated |
| TileDecoder.PyCopyWraps | scripts/split.py:28-33 | With Python's negative indexing, a window start no further back than the output's length never raises and appends `cnt + 1` bytes |
| TileDecoder.BackRefAgrees | scripts/split.py:19-33 | Where the distance is within the output, the back-reference as written and the checked one give the same result |
| TileDecoder.BackRefWrapsAround | scripts/split.py:28-33 | A distance past the output but within twice its length decodes in the code as written, where the checked back-reference reports a bad distance |
| TileDecoder.BackRefWrapExample | scripts/split.py:28-33 | Control byte 0x80 with operand 4 after the output 1 2 3: the code as written appends 2 2; the checked back-reference rejects distance 5 |
| TileOpcodes.HighLowDistance | scripts/split.py:21-27 | The split.py distance is `(b mod 4) * 256 + s + 1` |
| TileOpcodes.SumShiftDistance | unpacker.py:36-41 | The unpacker.py distance is `((b + s) mod 4) * 256 + 1`, always one of 1, 257, 513, 769 |
| TileOpcodes.DistancesAgreeIff | unpacker.py:39-41 | The two distance formulas agree exactly when the operand byte is 0 |
| TileOpcodes.DistanceDivergenceExample | unpacker.py:39-41 | Control byte 0x80 with operand 1 gives distance 2 in split.py and 257 in unpacker.py |
| TileOpcodes.CopyIsPeriodic | scripts/split.py:28-33 | Every byte a copy from distance `d` appends equals the byte `d` positions before it |
| TileOpcodes.BackRefCopies | unpacker.py:42-47 | A successful back-reference appends bytes each equal to the byte one distance back |
| TileOpcodes.StepTruncatedIff | scripts/split.py:17-75 | An opcode fails for truncation exactly when its last operand would lie at or past the end of the block |
| TileOpcodes.BackRefDispatch | scripts/split.py:19-22 | A control byte of 0x80 or more is a back-reference of `((b >> 2) & 0x1F) + 2` bytes |
| TileOpcodes.AlternatingDispatch | scripts/split.py:35-38 | Top bits 011 select an alternating run over `(b & 0x1F) + 2` fresh bytes |
| TileOpcodes.ByteRunDispatch | scripts/split.py:47-49 | Top bits 001 select a byte run of `(b & 0x1F) + 2` bytes |
| TileOpcodes.PatternDispatch | scripts/split.py:56-58 | Top bits 010 select a pattern run of `(b & 0x1F) + 2` pairs |
| TileOpcodes.LiteralDispatch | scripts/split.py:66-68 | Top bits 000 select a literal run of `(b & 0x1F) + 1` bytes |
| TileDecoderProps.DecodersAgreeWithoutBackRefs | unpacker.py:49-83 | On a block whose visited opcodes are never back-references, `unpack_tiles` and `unpack` give the same result |
| TileDecoderProps.LowBytesAreBackRefFree | unpacker.py:33-35 | A block whose bytes after the header are all below 0x80 visits no back-reference |
| TileDecoderProps.DecodersDivergeExample | unpacker.py:35-47 | After a literal 1 2 3 4 5, the back-reference 0x80 0x04 copies from distance 5 in split.py and distance 1 in unpacker.py, so the decoders' outputs differ |
| TileDecoderProps.ByteRunExample | scripts/split.py:47-54 | `0x21 0xAA` decodes to three `0xAA` bytes under either formula |
| TileDecoderProps.OperandsPastDeclaredSizeExample | scripts/split.py:17 | The size header bounds the cursor, not the operands: a pattern whose operands lie past the declared size is still read |
| TileDecoderProps.CursorAtEndExample | scripts/split.py:17-18 | A block whose size header equals its length never decodes: the guard admits a cursor at the end and the read fails |
| TileDecoderProps.DeclaredSizeRoundTrip | scripts/split.py:14 | A block that starts with the two big-endian bytes of `n` declares size `n` |
| Bytes.BigEndianRoundTrip | scripts/split_data.py:55-62 | Writing a value that fits as `n` big-endian bytes and reading it back gives the value |
| Numerals.PyIntRoundTrip | scripts/split_data.py:27-47 | `int(str(n))` and `int('%X' % n, 16)` give `n` back |
| Numerals.PyIntOfStrip | scripts/split_data.py:44-47 | `int()` ignores surrounding whitespace: strings that strip alike read alike |
| Numerals.PyIntNegative | scripts/split_data.py:44-47 | `int('-' + str(n))` is `-n` |
| DcValues.Encode | scripts/split_data.py:51-62 | A `dc.b` value is stored as its low byte; a `dc.w` or `dc.l` value is stored big-endian at its width, negatives wrapped; a positive value too large raises the overflow, and only that |
| DcValues.Latin1 | scripts/split_data.py:22-24 | Latin-1 encoding succeeds exactly when every character is below 256, one byte per character |
| DcValues.ParseDcValue | scripts/split_data.py:15-64 | An empty token is not data; a number is stored at the directive's width; only a quoted token can fail on a character past Latin-1; an overflow is only a positive value too large for a word or long |
| DcValues.HexRoundTrip | scripts/split_data.py:27-31 | The token `$` followed by `n` in hex reads back as `n`, big-endian at the directive's width, whenever it fits |
| DcValues.ByteWraps | scripts/split_data.py:51-54 | A decimal `dc.b` value is stored modulo 256, negatives included |
| DcValues.NegativeWraps | scripts/split_data.py:55-62 | A negative decimal `dc.w` or `dc.l` value wraps into range at its width |
| DcValues.PositiveOverflowRaises | scripts/split_data.py:55-62 | A decimal `dc.w` or `dc.l` value too large for the width raises rather than truncating |
| DcValues.LabelIsNotData | scripts/split_data.py:44-48 | A bare identifier, a label reference, is not data |
| DcValues.DoubleMinusRaises | scripts/split_data.py:44-47 | Two leading minus signs pass the digit test but make `int()` raise |
| DcValues.QuotedText | scripts/split_data.py:22-24 | A quoted token is its inner text, one byte per character, whatever the directive size |
| DcValues.SignedNumber | scripts/split_data.py:44-62 | The token `str(n)` is stored as `n` at the directive's width |
| DcLines.ParseDcLine | scripts/split_data.py:67-110 | A line that is no directive is not data; data is never empty, and every value of a line that is data parses as data |
| DcLines.ParseValues | scripts/split_data.py:103-110 | The values of a line are data exactly when every value is |
| DcLines.ParseValuesAppend | scripts/split_data.py:103-110 | Values are parsed left to right and their bytes concatenated in order |
| DcLines.QuoteFreeItems | scripts/split_data.py:81-100 | Without quotes, the items are exactly the stripped non-empty pieces of `values.split(',')` |
| DcLines.QuotedItem | scripts/split_data.py:81-100 | A quoted value is one item, commas and all |
| DcLines.PatternsAgree | scripts/convert_tiles.py:65-71 | Where split_data's directive pattern matches a line, convert_tiles' pattern finds the same directive |
| DcLines.RenderRoundTrip | scripts/split_data.py:67-110 | A `dc.b` line written from non-empty bytes reads back as those bytes, under either pattern |
| DataBlocks.Classify | scripts/split_data.py:126-140 | A line is blank or a comment, a label line with or without a `dc` directive after the label, or a plain line, in the order the script checks them |
| DataBlocks.BlankIsStripTest | scripts/split_data.py:128 | The blank test is exactly `not line.strip() or line.strip().startswith(';')` |
| DataBlocks.SplitDataBlocksGathers | scripts/split_data.py:113-187 | Every returned block starts at its label line, holds its lines' bytes in order and at least `min_size` of them; blocks come in source order without overlapping |
| DataBlocks.SplitDataBlocksLines | scripts/split_data.py:120-187 | Each block begins at a label line with a `dc` directive and its bytes start with that directive's; each later line of it is blank or an unlabelled `dc` line with data |
| DataBlocks.SplitDataBlocksMaximal | scripts/split_data.py:126-187 | No returned block could be extended: the first later line that is not blank or a comment, if any, is not an unlabelled `dc` line with data |
| DataBlocks.SplitDataBlocksComplete | scripts/split_data.py:126-187 | Every maximal run of data lines that opens at a label line with data and holds at least `min_size` bytes is returned |
| DataBlocks.SplitDataBlocksExact | scripts/split_data.py:113-187 | The returned blocks are exactly the qualifying runs of the input |
| Binclude.Comment | scripts/split_data.py:224-228 | The carried comment is empty exactly when the label line's rest has no `;`; otherwise it is the rest from the first `;`, with trailing whitespace removed |
| Binclude.Replacement | scripts/split_data.py:213-232 | A block is replaced exactly when its first line starts with a label; the replacement keeps that label and ends with the block's end label |
| Binclude.ReplaceWithBinclude | scripts/split_data.py:204-239 | The offset-tracking loop gives the independent splice of every replaced block, and the result is shorter by the sum of `num_lines - 1` over the replaced blocks |
| Binclude.RebuiltLength | scripts/split_data.py:235-237 | The splice removes `num_lines - 1` lines per replaced block and nothing else |
| Binclude.SplitBlocksReplaced | scripts/split_data.py:209-219 | Every block `split_data_blocks` returns starts at a label line, so every one of them is replaced |
| TileConvert.NormalizeAddr | scripts/convert_tiles.py:12-14 | The address loses all its leading zeros and is upper-cased, so it never starts with `0` |
| TileConvert.NormalizeIdempotent | scripts/convert_tiles.py:12-14 | Normalising twice is normalising once |
| TileConvert.FindLabel | scripts/convert_tiles.py:132-141 | The label's line is the first line starting with `label:`; there is none exactly when no line starts so |
| TileConvert.FirstIsLeast | scripts/convert_tiles.py:146 | The `binclude` search finds the earliest match: every match from the start is found, or one before it is |
| TileConvert.Judge | scripts/convert_tiles.py:182-194 | A line is skipped exactly when blank or a comment; a taken line is a `dc` line with data; the extraction fails exactly on a `dc` line whose value raises |
| TileConvert.CollectFrom | scripts/convert_tiles.py:181-194 | The loop stops at the first line that is neither blank nor a `dc` line with data, fails exactly when that line raises, and ends on the last line it took |
| TileConvert.DecideAt | scripts/convert_tiles.py:143-211 | A `binclude` already naming the address's file makes no change; another one becomes a one-line rename; inline data becomes an extraction of its range, never with empty data |
| TileConvert.Decide | scripts/convert_tiles.py:128-211 | An address whose label is absent makes no change; every change covers lines from the label's line on |
| TileConvert.Changes | scripts/convert_tiles.py:126-212 | Collecting succeeds exactly when every address is decided; every change covers its range, and there are no more changes than addresses |
| TileConvert.Assign | scripts/convert_tiles.py:232 | Slice assignment keeps the lines before and after the clamped range and puts the content in between |
| TileConvert.SortedChanges | scripts/convert_tiles.py:222-229 | The changes are sorted by first line, highest first, and none is lost or invented |
| TileConvert.ApplyLayout | scripts/convert_tiles.py:229-232 | Splices applied from the bottom up give the layout built from the original lines |
| TileConvert.ConvertTiles | scripts/convert_tiles.py:105-232 | `main` as written succeeds exactly when every address is decided, and when no label is named twice it gives the intended splice |
| TileConvert.ConvertTilesIntended | scripts/convert_tiles.py:220-232 | Each label is replaced once, with every range taken from the original lines, spliced from the bottom up |
| TileConvert.DuplicateLosesLines | scripts/convert_tiles.py:229-232 | The same extraction applied twice replaces its own output together with the lines after it, leaving fewer lines than the intended splice |
| TileConvert.ConvertTilesRepeated | scripts/convert_tiles.py:128-232 | An address listed twice whose block spans two or more lines, with a line after it, makes the script as written return fewer lines than intended |
| TileConvert.AgreeWhenDistinct | scripts/convert_tiles.py:229-232 | Without a label named twice, the splice as written and the intended one agree |
| AsmFixer.NumberTokenValues | asm_fixer.py:325-326 | `$` hex, `%` binary and plain decimal tokens read as the value of their digits |
| AsmFixer.HexRoundTrip | asm_fixer.py:325-326 | `'$%X' % n` reads back as `n` |
| AsmFixer.TokensFrom | asm_fixer.py:330-331 | Every token `findall` yields has one of the four shapes: hex, decimal, binary or a name |
| AsmFixer.TokenMeaning | asm_fixer.py:336-348 | A numeric token stands for its digits' value; a name for the number it is defined as; 0 when it is undefined or not a number; an empty definition raises |
| AsmFixer.PackValue | asm_fixer.py:349-354 | The packed bytes read back big-endian as the value masked to the width |
| AsmFixer.ParseArray | asm_fixer.py:329-356 | No tokens give no data; tokens without sizes fail; the length is the sum of the widths the sizes select cyclically; it fails exactly when a token's value raises |
| AsmFixer.ParsedArrayToken | asm_fixer.py:336-354 | Token `i`'s value, masked to the width of `sizes[i mod len]`, sits at its offset in the packed data |
| AsmFixer.FieldSizes | asm_fixer.py:365-373 | There are never more sizes than fields, since a field without `dc.` is passed over; when every field has one there is one size per field |
| AsmFixer.ParseStruct | asm_fixer.py:359-377 | An unknown struct leaves the text as it is; a known one packs the text with its fields' sizes |
| AsmFixer.DcbOperands | asm_fixer.py:151-157 | Both operands of a matched `dcb.b` are numbers and never negative |
| AsmFixer.RorgKeepsCount | asm_fixer.py:159-160 | A fill of zeros becomes `rorg` whose operand reads back as the fill count |
| AsmFixer.FixDcb | asm_fixer.py:150-164 | Text without `dcb.b` is returned unchanged |
| AsmFixer.GetRomStart | asm_fixer.py:132-138 | Without the `; segment "ROM"` line the text is unchanged; otherwise the result is the suffix that starts right after the newline opening the marker's first occurrence |
| AsmFixer.GetRomEnd | asm_fixer.py:141-147 | Without the `; end of 'ROM'` line the text is unchanged; otherwise the result is the prefix through the newline before the marker's first occurrence |
| ProcedureWindow.StartLine | scripts/get_procedure.py:20-29 | The start is the first line opening with `name:`; there is none exactly when no line does |
| ProcedureWindow.EndLine | scripts/get_procedure.py:31-51 | When an end comment follows within 500 lines the end is the first one; otherwise the end is the fallback |
| ProcedureWindow.FallbackEnd | scripts/get_procedure.py:40-51 | The end is the line before the first later non-`loc_` label within 200 lines, else `min(start + 100, len - 1)` |
| ProcedureWindow.FindProcedure | scripts/get_procedure.py:14-60 | No result exactly when no line opens with `name:`; otherwise a slice of the lines with the label at offset `min(start, 5)`, running from there to `min(len(lines), end_line + 2)`, so through the end line and at most one line past it |
| ProcedureWindow.ExtractShowsLabel | scripts/get_procedure.py:57-60 | The returned offset indexes the label line inside the returned slice and is at most 5 |
| ProcedureWindow.PadLeft | scripts/get_procedure.py:71 | The text is right-aligned with spaces in a field of the given width, and kept whole when it is longer |
| ProcedureWindow.FormatOutputLines | scripts/get_procedure.py:63-81 | Split at newlines, the output has one line per window line, each made of its number column, a highlight that is `>>> ` exactly at the label line, and the line's text without trailing whitespace |
| ProcedureWindow.MarkerNumber | scripts/get_procedure.py:71 | The number column reads back with `int()` as the 1-based line number |
| RomCompare.CompareFiles | scripts/compare.py:13-30 | The files compare equal exactly when their bytes are equal; sizes mismatch exactly when the lengths differ; otherwise the reported offset is the first where the bytes differ |
| RomCompare.HexPadded | scripts/compare.py:28 | A number is written in upper-case hex digits, zero-padded to exactly the larger of the width and its own digit count, and the digits read back as the number |
| RomCompare.ByteDigits | scripts/compare.py:28 | Each differing byte is written as exactly two hex digits |
| TasScenes.Fields | scripts/report.py:31-41 | A line yields two fields unless it is blank, starts with `Frames` or has no comma |
| TasScenes.ParseRange | scripts/report.py:44-49 | No `-` gives no scene; two or more raise; one `-` gives a scene exactly when `int()` reads both ends, with those ends |
| TasScenes.ParseTasDescription | scripts/report.py:26-51 | There are never more scenes than lines |
| TasScenes.ParseTasOk | scripts/report.py:26-51 | The file parses exactly when no line raises |
| TasScenes.ParseTasAppend | scripts/report.py:30-51 | Scenes keep file order: the scenes of two parts are joined in order and the first error wins |
| TasScenes.TasLineRoundTrip | scripts/report.py:30-49 | A scene written as `start-end, description` reads back as that scene |
| TasScenes.SceneForFrame | scripts/report.py:54-59 | No scene exactly when no range holds the frame, bounds included; otherwise the description of the first scene whose range holds it |
| DiffAnalysis.Screenshots | scripts/report.py:129-130 | The screenshots are exactly the listed `.png` files without `_diff`, sorted by name |
| DiffAnalysis.Frames | scripts/report.py:136-142 | There are frames exactly when some screenshot names a number, and every frame is one named |
| DiffAnalysis.FramesAppend | scripts/report.py:136-142 | One more screenshot adds its frame, if `int()` reads one from its name, after the earlier frames: every parsed frame is kept, in screenshot order |
| DiffAnalysis.PairsPartition | scripts/report.py:153-160 | Every consecutive pair is either identical or differing |
| DiffAnalysis.FrozenMeans | scripts/report.py:152-164 | A run is frozen exactly when it has at least three screenshots of which at most one consecutive pair differs |
| DiffAnalysis.Classify | scripts/report.py:166-174 | The change type is the first in the order black screen, red screen, frozen, visual change whose condition holds |
| DiffAnalysis.AnalyzeDiffs | scripts/report.py:123-176 | No diffs exactly when the directory is missing or no screenshot names a frame; otherwise the frames are the screenshots' and the type is one whose condition holds for the first screenshot and the frozen test |
| DiffAnalysis.BlackScreenFirst | scripts/report.py:167-168 | A black first screenshot is reported as a black screen, whatever else holds |
| DiffAnalysis.ChangeDesc | scripts/report.py:241-250 | The description is `unknown effect` exactly for names other than the four change types |
| DiffAnalysis.DescribesType | scripts/report.py:241-250 | Different change types have different descriptions |
| DiffAnalysis.VisualEffectMeans | scripts/report.py:241-250 | Only a visual change is described as `visual effect` |
| AnalysisReport.MakeEntry | scripts/report.py:224-259 | An entry keeps the procedure name, reads its frame with `int()`, takes the scene holding that frame, takes its change type and frame count from the analysis of the procedure's diffs, and describes that change type |
| AnalysisReport.EntriesOfRows | scripts/report.py:224-231 | Every visual row with a frame number yields its entry, and every entry comes from such a row |
| AnalysisReport.SceneNames | scripts/report.py:261-264 | The groups are keyed by each known scene once, and every known entry's scene is a key |
| AnalysisReport.GroupedPermutation | scripts/report.py:261-264 | The scene groups and the unknown list together hold each entry exactly once |
| AnalysisReport.SceneOrderSorted | scripts/report.py:302-305 | Scenes come out by start frame, unlisted ones last with key 999999, stably; they are exactly the grouped scenes |
| AnalysisReport.LastWith | scripts/report.py:303 | The start frame kept for a description is the last scene's with that description, since later keys overwrite earlier ones |
| AnalysisReport.SortedByFrame | scripts/report.py:311-321 | Within a section, entries come by first frame, ties in appending order, none lost |
| AnalysisReport.SummarySorted | scripts/report.py:328-339 | The summary lists every entry exactly once, in procedure-name order |
| AnalysisReport.TypeNames | scripts/report.py:285-291 | The statistics hold each change type of the entries once, and only those |
| VisualProcs.MatchRecord | scripts/extract_visual_procs.py:30-34 | A match captures a `sub_` name that opens the line before a colon, and the frame the text after the colon reads as, which starts with `visual effect` |
| VisualProcs.MatchVisualText | scripts/extract_visual_procs.py:30-34 | The text `name: visual effect (frame N)` matches as that name and frame |
| VisualProcs.Step | scripts/extract_visual_procs.py:22-44 | A header line moves to its scene and yields nothing; any other line keeps the scene, and yields the pending row of the name and frame the pattern matches exactly when it holds the marker text and the pattern matches, with the current scene or `Unknown` |
| VisualProcs.HeaderStep | scripts/extract_visual_procs.py:25-27 | A `--- X ---` line moves to scene `X` stripped and yields no row |
| VisualProcs.ParseAnalysisReport | scripts/extract_visual_procs.py:15-46 | Every row found is a pending `sub_` procedure with a scene and empty new name, description and category |
| VisualProcs.SceneIsLastHeader | scripts/extract_visual_procs.py:18-27 | After any lines, the current scene is the name in the last header line read, or none before the first header |
| VisualProcs.ParseAnalysisReportAppend | scripts/extract_visual_procs.py:21-44 | For any report, one more line adds exactly the row it matches, in the scene of the last header before it, after the rows found so far |
| VisualProcs.SummaryStep | scripts/extract_visual_procs.py:30-31 | A summary line `proc: scene - desc` never yields a row |
| VisualProcs.ReportExtraction | scripts/report.py:275-339 | Reading back a report finds exactly the `sub_` visual-effect procedures, scene by scene in report order and by frame within a scene, each with its scene; the summary and statistics add nothing |
| VisualProcs.GeneratedExtraction | scripts/extract_visual_procs.py:15-46 | The rows read from the report `generate_report` writes are the visual `sub_` procedures with a frame, grouped by scene in report order |
| ProcedureDatabase.BatchMapLast | scripts/update_database.py:23-29 | The batch map holds, for every non-empty name, the last batch row with it, and nothing for the empty name |
| ProcedureDatabase.Merge | scripts/update_database.py:41-47 | A matched row takes the batch's new name, description and category and the status `analyzed`, keeping name, scene and frame; an unmatched row is unchanged |
| ProcedureDatabase.UpdateDatabase | scripts/update_database.py:16-63 | Every row is kept in order; a row with a batch row takes its fields and is marked analysed, any other is unchanged; the count is the number of matched rows |
| ProcedureDatabase.MergeMatches | scripts/update_database.py:41-43 | A row is merged exactly when the last non-empty batch row with its name exists, and with that row |
| ProcedureDatabase.LineLabel | scripts/cleanup_database.py:29-31 | A line defines a label exactly when word characters open it followed by a colon and a whitespace character; the label is those characters |
| ProcedureDatabase.LabelRoundTrip | scripts/cleanup_database.py:29 | A label definition line reads back as its label |
| ProcedureDatabase.SourceLabels | scripts/cleanup_database.py:21-34 | The label set is exactly the labels some line defines |
| ProcedureDatabase.CleanRow | scripts/cleanup_database.py:48-64 | A row with a new name whose old name is no label loses its new name and description; any other row is unchanged; a cleaned row is never cleared again |
| ProcedureDatabase.CleanupDatabase | scripts/cleanup_database.py:37-79 | Rows keep their order, count and other fields; rows without a new name or with a defined old name are unchanged; the others lose new name and description; the count is the number cleared |
| ProcedureDatabase.CleanupIdempotent | scripts/cleanup_database.py:37-79 | A second cleanup with the same labels clears nothing and changes nothing |
| ProcedureDatabase.BatchLimit | scripts/prepare_batch.py:32-33 | The size check follows the append, so at least one row is taken |
| ProcedureDatabase.LoadPendingProcedures | scripts/prepare_batch.py:17-35 | The result is the first pending rows in file order, as many as the batch holds, and a batch size of zero or less still takes one |
| ProcedureDatabase.BatchFromPending | scripts/prepare_batch.py:25-30 | Every selected procedure is a pending row's name, scene and frame |

## Left out

- File and console I/O: reading the ROM, the address files, the assembly source, the CSV files and the report; writing tile files, binaries, CSV files and reports; every `print`. The models take and return sequences of bytes, lines and records.
- The `main` functions of every script, `save_binary_files` of scripts/split_data.py, the argument parsing, the per-address try/except tally of scripts/split.py, and the file copy of scripts/convert_tiles.py (`shutil.copy2`). They are plumbing around the modelled logic.
- `extract_procedures` of scripts/prepare_batch.py: it runs get_procedure.py as a subprocess and writes its output.
- `write_database` of scripts/extract_visual_procs.py and the CSV writing at the end of update_database and cleanup_database: CSV output of the rows the model returns.
- `analyze_image` and `compare_images` of scripts/report.py: PIL pixel access and floating-point ratios. They are parameters `kind` and `same` of `DiffAnalysis.AnalyzeDiffs`.
- The report text of scripts/report.py is a list of lines; the counts of the title, the `-count` sort of the statistics and the final console summary are modelled only as far as the report parser reads them.
- The rest of asm_fixer.py (`remove_ida_comments`, `collect_structs`, the `apply_*` rewriters, `fix_quotates`, `fix_at`, `create_externs`), scripts/analyze.py, the build and clean scripts, scripts/rename_procedures.py, scripts/show_progress.py and create_batch_csv.py.
- The tile file write of unpacker.py:88-90.
- CSV rows with missing or extra columns: rows are records with exactly the columns the scripts use.
- BackRefOp: a distance larger than the output so far is an error, where the code as written reads `res[idx_window]` with a negative index and copies from the end of the output as long as the distance is at most twice its length. `TileDecoder.BackRefAsWritten` models the code as written; see Findings.
- ProcedureDatabase.LineLabel: `\w` is ASCII letters, digits and `_`; Python 3's `re` also counts other Unicode letters and digits as word characters.
- DcValues.ParseDcValue: the decimal test accepts ASCII digits only, where `str.isdigit` also accepts other Unicode digits; and the `$`, `0x` and `%` paths read their digits through `Numerals.PyInt`, which takes ASCII digits only, where Python's `int('٣', 16)` is 3. The same holds for the copy in scripts/convert_tiles.py.
- TasScenes.ParseRange: `int()` is `Numerals.PyInt`, which reads ASCII digits only; Python's `int()` also reads other Unicode decimal digits, so a range such as `١-٢` is a scene in the script and gives none here.
- DiffAnalysis.FrameOf: `int()` reads ASCII digits only, so a screenshot named in other Unicode decimal digits gives a frame in the script and none here; `DiffAnalysis.FramesAppend` inherits this.
- DiffAnalysis.Frames: reads each name with the ASCII-only `int()` of `DiffAnalysis.FrameOf`, so names in other Unicode decimal digits give no frame here.
- TileConvert.NormalizeAddr: upper-casing maps ASCII letters only; `str.upper()` maps every cased letter, some to more than one character (`'ß'` to `'SS'`), so the length the contract states matches the script only for addresses without such letters.
- AnalysisReport.MakeEntry: `HasFrame` accepts ASCII digits only, where `str.isdigit` at scripts/report.py:228 also accepts other Unicode digits.
- VisualProcs.MatchRecord: `\d` is ASCII digits only (`IsDecimal`); Python 3's `re` also matches other Unicode digits.
- AsmFixer.FixDcb: the contract states only that text without `dcb.b` is unchanged; each rewrite is described by `AsmFixer.RorgKeepsCount` and `AsmFixer.DcbOperands`. The code rewrites the matches one by one with `str.replace(m, r, 1)`; the model rewrites each match in place. They agree because no rewrite contains `dcb.b`, so the first remaining occurrence of a match is the match itself; this argument is not proved.
- AnalysisReport.MakeEntry: the frame of a row without a frame number is 0; such rows never make an entry.
- TileConvert.DecideAt: the label is built from the normalised address but the tile file from the address as written, as in the code; the model keeps both.
- ProcedureWindow.FindProcedure: `format_output` takes `end_offset` and never uses it; the model carries it unchanged.
- VisualProcs.GeneratedExtraction: requires procedure names without surrounding whitespace or `:` and scene descriptions that cannot be read as headers or records; other names can make the report ambiguous.
- DiffAnalysis.AnalyzeDiffs: the contract says the chosen type applies; that it is the first applicable one in priority order is stated by `DiffAnalysis.Classify`.
- TasScenes.ParseTasDescription: its own contract bounds the number of scenes only; the line-by-line meaning is stated by `ParseTasOk`, `ParseTasAppend` and `TasLineRoundTrip`.

## Findings

| source | as written | input that shows it | evidently intended | confidence | as-written member | corrected member |
|---|---|---|---|---|---|---|
| scripts/convert_tiles.py:229-232 | Every change is applied, duplicates included; a label named twice (the same address twice, or `0123` and `123`) yields two identical splices, and the second one replaces the first one's output together with the lines after it | lines `byte_1:`, `dc.b $01`, `dc.b $02`, `next:`, `x` with addresses `1` and `1` | Each label replaced once, every range taken from the original lines | medium, not executed | TileConvert.ConvertTilesRepeated | TileConvert.ConvertTilesIntended |
| scripts/split.py:28-33 | A back-reference whose distance exceeds the output so far reads `res` with a negative index and copies bytes from the end of the output | output `1 2 3`, then control byte `0x80` with operand `0x04`: distance 5, and the code appends `2 2` | A distance reaching before the start of the output is a decoding error | low, not executed | TileDecoder.BackRefWrapExample | TileDecoder.BackRefOp |
