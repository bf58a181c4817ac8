# OpenWorldAuthorAttribution core, modelled in Dafny

OpenWorldAuthorAttribution compares compiled programs by the statistics of
their instruction patterns. Both of its programs share the same core:

- **`owaa_dict.cpp`**: patterns come from a hand-written dictionary.
- **`owaa_ngram.cpp`**: patterns are every window of n decoded instructions.

This project models that core and proves what it does:

- **`BitString`** (`bitstring.dfy`): the packed bit string.
  - A class whose byte vector and cursor are tied to a ghost bit sequence by a representation invariant.
  - Its equality and its hash fold.
- **Template matching and decoding** (`formats.dfy`):
  - `match`, `matchString` and `parseInstruction`.
  - The `parseInstructions` decode loop, fed with a bit sequence in place of the file stream.
  - The most-significant-bit-first byte order of `BitInputStream`.
- **The global opcode table** (`opcodes.dfy`): `opCodeMap` and `opCodeCount`.
  - A class passed explicitly to the operations that write it.
  - A value-level `Intern` shared by both sides.
- **`SimplifiedInstruction` and `InstructionPattern`** (`patterns.dfy`):
  - Their equalities and hashes.
  - `InstructionPattern::match`: the single-pass, first-binding-wins unification whose "unbound" sentinel is the empty bit string.
- **`InstructionPatternFrequencyMap`** (`profiles.dfy`): the counts, the total and a ghost history of the added patterns.
- **`parsePattern`** (`dictionary.dfy`): one dictionary block turned into a pattern.
- **`mapDictionaryPatterns`** (`tokenizer.dfy`): the greedy tokenizer.
- **The n-gram side** (`ngram.dfy`): the window constructor `InstructionPattern(arr, st, en)`, `mapNGramsWithN` and `mapNGrams`.

`BitString`, the formats and the decoder appear in both source files. They
are modelled once, and the table cites the copy in `owaa_dict.cpp`. The
copy in `owaa_ngram.cpp` (`20-64`, `77-116` and `242-258`) is the same code
with two members fewer:

- it has no `operator!=` on `BitString` (`owaa_dict.cpp:56-65`);
- its format has no `matchString` (`owaa_dict.cpp:110-117`), which only the dictionary side uses.

Its `BitStringHash` is at `owaa_ngram.cpp:56-64`.

Two behaviours of the code are worth naming, because a reader might expect otherwise:

- **Slot numbering in `parsePattern`.**
  - The letter map `charMap` is declared once per block (`owaa_dict.cpp:214`), but the slot counter `argIndex` is re-declared as 0 for every line (`owaa_dict.cpp:219`).
  - So a letter first seen on a later line takes slot 0, 1, … again, and can share a slot with a different letter of an earlier line.
  - The model does what the code does. `Dictionary.SlotCollision` shows a block where two different letters end up in one slot.
- **A line that fits no template.** `parsePattern` pushes a value-initialised `SimplifiedInstruction()` (opcode 0, no arguments) before it tries the templates (`owaa_dict.cpp:216`). A line that fits none keeps that instruction, and neither the map nor the opcode table changes. The model calls this instruction `Dictionary.Unfitted`.
- **The decode loop.**
  - After a match the loop does not stop scanning the format table. It goes on testing the remaining formats against the just-emptied accumulator (`owaa_dict.cpp:332-336`).
  - `Formats.Decoded` models this as written.
  - `Formats.DecodedIsSegments` proves that, with non-empty templates, this is the same as "first format in table order, shortest matching prefix".

## Model

| member | source | states |
|---|---|---|
| BitStrings.BitString.constructor | owaa_dict.cpp:24 | The empty bit string has no bytes, has `bitIndex == 8` and holds no bits. |
| BitStrings.BitString.Size | owaa_dict.cpp:40-42 | `((bytes.size() - 1) << 3) + bitIndex` is the number of bits held, including 0 for the empty value. |
| BitStrings.BitString.GetBit | owaa_dict.cpp:36-38 | For every index below the size, reading byte `idx >> 3` at bit `idx & 7` gives bit `idx` of the abstract sequence. |
| BitStrings.BitString.AddBit | owaa_dict.cpp:26-34 | Appends exactly the low bit of the argument and keeps the packing invariant. Pushing a zero byte when the cursor is at 8 and XOR-ing the bit in keeps every unused bit zero. |
| BitStrings.SetBitPacks | owaa_dict.cpp:31-33 | With the bit set, XOR-ing `1 << bitIndex` into the last byte packs the extended sequence. |
| BitStrings.ClearBitPacks | owaa_dict.cpp:31-33 | With the bit clear, the unchanged bytes already pack the extended sequence. |
| BitStrings.PacksByteCount | owaa_dict.cpp:24-34 | Under the invariant the byte count is exactly ceil(bits/8), and there are no bytes exactly when there are no bits. |
| BitStrings.ByteOfBit | owaa_dict.cpp:36-38 | Bit j of a packed byte is bit j of its chunk, and zero beyond the chunk's end. |
| BitStrings.XorLast | owaa_dict.cpp:32 | `*bytes.rbegin() ^= m` changes only the last byte, which becomes its XOR with m. |
| BitStrings.RepresentationIsExact | owaa_dict.cpp:20-54 | Two valid bit strings have the same bytes and `bitIndex` if and only if they hold the same bits. |
| BitStrings.SameBytes | owaa_dict.cpp:50-53 | The byte loop returns true if and only if the two equal-length byte vectors are equal. |
| BitStrings.Equal | owaa_dict.cpp:45-54 | `operator==` on BitString is true if and only if the bit sequences are equal. |
| BitStrings.NotEqual | owaa_dict.cpp:56-65 | `operator!=` on BitString is true if and only if the bit sequences differ: the exact negation of `==`. |
| BitStrings.HashFold | owaa_dict.cpp:69-72 | The fold `sol = 10007 * sol + x`, computed modulo 2^64 as size_t arithmetic, always stays below 2^64. |
| BitStrings.Hash | owaa_dict.cpp:67-75 | BitStringHash is the order-sensitive fold of getBit(0) .. getBit(size() - 1). |
| BitStrings.HashRespectsEquality | owaa_dict.cpp:45-75 | Bit strings that `operator==` calls equal (same bytes and `bitIndex`) have equal hashes. |
| Formats.Match | owaa_dict.cpp:99-108 | `match` is true if and only if the lengths are equal and no `'0'`/`'1'` of the template disagrees with its bit. Letters accept any bit. |
| Formats.MatchString | owaa_dict.cpp:110-117 | `matchString` is true if and only if the lengths are equal and no position has `'0'` on one side and `'1'` on the other. |
| Formats.Parse | owaa_dict.cpp:119-135 | The instruction read from a template and bits. A template ending in a field letter yields at least one argument. |
| Formats.ParseStep | owaa_dict.cpp:122-133 | Position i either appends its bit to the opcode (literal), starts a new argument (run start), or grows the last argument. When it grows, that argument exists. |
| Formats.ParseInstruction | owaa_dict.cpp:119-135 | The loop over the template builds exactly `Parse(t, bits)`. |
| Formats.ParseOpCode | owaa_dict.cpp:124-125 | The opcode is the bits at the literal positions, in order. |
| Formats.ParseFlatten | owaa_dict.cpp:126-132 | The arguments, laid end to end, are the bits at the field positions, in order. |
| Formats.ParseArgumentCount | owaa_dict.cpp:127-131 | There is one argument per maximal run of equal field letters (a run starts at 0 or where `str[i-1] != str[i]`), and no argument is empty. |
| Formats.ParseShape | owaa_dict.cpp:119-135 | The four facts together: literal-bit opcode, field-bit arguments, one argument per run, and every argument non-empty. Moreover argument k is exactly the bits `[RunBegin(t, k), RunEnd(t, k))`, and that range is the k-th maximal run of one field letter in the template. |
| Formats.Runs | owaa_dict.cpp:126-131 | The runs of field letters, as begin/end pairs: one per argument, and when the template ends in a field letter the last run ends at the template's end. |
| Formats.RunsAreRuns | owaa_dict.cpp:126-131 | Each pair of `Runs` is a maximal run: it starts where an argument starts (`i == 0` or `str[i-1] != str[i]`), every position in it carries the same letter, and the position after it does not. The runs come in order and do not overlap. |
| Formats.ParseRuns | owaa_dict.cpp:119-135 | The k-th argument that `parseInstruction` builds is the slice of the bits under the k-th run of `Runs`. |
| Formats.LiteralFieldLengths | owaa_dict.cpp:122-133 | Every template position is either literal or field. |
| Formats.ParseSizes | owaa_dict.cpp:119-135 | The opcode length plus the argument lengths equals the template length. |
| Formats.MatchedOpCode | owaa_dict.cpp:99-135 | For bits that match the template, the parsed opcode is the template's own literal characters read as bits. |
| Formats.LiteralBitsOfMatch | owaa_dict.cpp:99-108 | On a matching bit string, the literal-position bits are the template's literals. |
| Formats.FirstMatchFrom | owaa_dict.cpp:332-333 | The index found, from j on, matches the bits, and no earlier index from j does. -1 means none matches. |
| Formats.FirstMatch | owaa_dict.cpp:332-333 | The first format in table order that matches the bits, or -1 when none does. |
| Formats.Scan | owaa_dict.cpp:332-336 | One pass over the formats as written. It emits at most one instruction per remaining format. It either keeps the accumulator or empties it, and it keeps it when it emits nothing. |
| Formats.Run | owaa_dict.cpp:328-338 | The outer loop as written. It emits at most one instruction per format for each remaining bit. |
| Formats.Decoded | owaa_dict.cpp:324-340 | `parseInstructions` over a bit sequence, starting from the empty accumulator. It emits at most one instruction per format for each input bit. |
| Formats.ParseInstructions | owaa_dict.cpp:324-340 | The decode loop over a bit sequence produces exactly `Decoded(formats, input)`: bits appended one at a time, every format scanned after each bit, and the accumulator reset on a match. |
| Formats.ScanEmpty | owaa_dict.cpp:332-336 | With non-empty templates, scanning the just-emptied accumulator emits nothing. |
| Formats.ScanFirst | owaa_dict.cpp:332-336 | With non-empty templates, one scan of the format table emits the parse of the first matching format and empties the accumulator, or emits nothing and keeps it. |
| Formats.RunIsSegments | owaa_dict.cpp:328-338 | The loop as written, from any accumulator, equals the shortest-prefix, first-match segmentation of the remaining bits. |
| Formats.RunAfterWord | owaa_dict.cpp:330-336 | When a format matches the accumulator plus the next bit, the loop emits that parse and continues from the empty accumulator. |
| Formats.RunGrow | owaa_dict.cpp:330-336 | When no format matches the accumulator plus the next bit, the loop emits nothing and continues with the longer accumulator. |
| Formats.SegmentsAfterWord | owaa_dict.cpp:330-336 | The segmentation side of the same step: a matched prefix is emitted as its parse and segmentation restarts after it. |
| Formats.SegmentsGrow | owaa_dict.cpp:330-336 | The segmentation side of the same step: an unmatched prefix is extended by one bit. |
| Formats.DecodedIsSegments | owaa_dict.cpp:324-340 | With non-empty templates, decoding is the segmentation into shortest prefixes that some format matches. |
| Formats.SegmentsBound | owaa_dict.cpp:328-338 | The segmentation emits at most one instruction per bit. |
| Formats.DecodedBound | owaa_dict.cpp:324-340 | With non-empty templates, decoding emits at most one instruction per input bit. |
| Formats.SegmentsWord | owaa_dict.cpp:330-337 | A recognised word (a match exactly at its end, none earlier) is emitted as one instruction, parsed with its first matching format, and decoding resumes after it. |
| Formats.SegmentsTail | owaa_dict.cpp:330-338 | Trailing bits with no matching prefix emit nothing. |
| Formats.DecodeWordsAppend | owaa_dict.cpp:324-340 | A run of recognised words followed by any rest decodes to the words' instructions, then the decoding of the rest. |
| Formats.DecodeWords | owaa_dict.cpp:324-340 | Recognised words followed by an unrecognised tail decode to exactly the words' instructions, in order. |
| Formats.ByteBitsMsbFirst | owaa_dict.cpp:282-289 | `BitInputStream::getBit` delivers each byte's eight bits, most significant first. |
| Formats.StreamBits | owaa_dict.cpp:274-290 | A file of k bytes gives a stream of 8k bits. |
| Formats.StreamBitsAt | owaa_dict.cpp:282-289 | Bit i of the stream is bit 7 - i % 8 of byte i / 8. |
| OpCodes.IdRange | owaa_dict.cpp:167-168 | The ids 0 .. opCodeCount - 1, exactly. |
| OpCodes.Intern | owaa_dict.cpp:237-244 | The find-or-insert on `opCodeMap`, as a value. It is a definition with no contract; what it guarantees is stated by `OpCodes.InternGrows`. |
| OpCodes.InternGrows | owaa_dict.cpp:237-244 | Find-or-insert keeps the table dense: its ids are exactly 0 .. count - 1, each used once. A known opcode keeps its id and the counter. A new one gets id `opCodeCount` and the counter rises by one. Every other entry is unchanged and the key set gains only the opcode. |
| OpCodes.OpCodeTable.constructor | owaa_dict.cpp:167-168 | At program start the table is empty, with counter 0, which is dense. |
| OpCodes.OpCodeTable.Canonicalize | owaa_dict.cpp:237-244 | The table update, in place: it keeps the table dense and returns the id and new state that `Intern` describes. |
| Patterns.InstructionsDiffer | owaa_dict.cpp:147-156 | `operator!=` on SimplifiedInstruction is true if and only if the opcode or the argument list differs. |
| Patterns.PatternsEqual | owaa_dict.cpp:200-207 | `operator==` on InstructionPattern is true if and only if the lengths match and every instruction is equal. |
| Patterns.InstructionHashes | owaa_dict.cpp:254-257 | The per-instruction hashes, one per instruction, in order. |
| Patterns.InstructionHash | owaa_dict.cpp:158-165 | The loop computes the fold over the argument slots, seeded with the opcode id. |
| Patterns.PatternHash | owaa_dict.cpp:251-260 | The loop computes the fold over the instruction hashes, from 0. Being a function of the pattern value, it is equal for equal patterns. |
| Patterns.Pad | owaa_dict.cpp:188-189 | `args.resize(s + 1)` makes slot s exist, keeps the old slots, and adds only unbound (empty) ones. |
| Patterns.PadBound | owaa_dict.cpp:188-189 | Resizing the binding vector keeps the binding-state invariant. |
| Patterns.BindFresh | owaa_dict.cpp:190-191 | Binding an unbound slot to the aligned stream argument keeps the binding-state invariant one position further. |
| Patterns.BindSame | owaa_dict.cpp:190-192 | Meeting a bound slot with its own value keeps the invariant one position further. |
| Patterns.BindClash | owaa_dict.cpp:192-193 | Meeting a bound slot with a different value means the pattern does not unify. |
| Patterns.ClashTaken | owaa_dict.cpp:190-193 | At the later position of a clash, the slot is already bound, to a value different from the stream argument seen there. |
| Patterns.BindOne | owaa_dict.cpp:188-193 | One argument position: on success the binding invariant moves one position forward. On failure the pattern does not unify. At a clash position it fails. |
| Patterns.NextInstruction | owaa_dict.cpp:183-195 | Finishing the arguments of instruction i carries the invariant over to instruction i + 1. |
| Patterns.BindArguments | owaa_dict.cpp:187-194 | One instruction's argument loop either leaves the invariant at the next instruction, or fails only when unification fails. |
| Patterns.ClashBeforeEnd | owaa_dict.cpp:183-193 | If the opcodes agree up to instruction i and the stream instruction has fewer arguments than the pattern's slots, then `ArgumentsFit` yields a clash inside instruction i, before its last stream argument. So the loop returns before it reads one that does not exist. |
| Patterns.BindInstruction | owaa_dict.cpp:183-195 | The arguments of instruction i, once its opcode and earlier ones agree: the invariant moves on to instruction i + 1, or the pattern does not unify. |
| Patterns.MatchAt | owaa_dict.cpp:179-197 | `match` returns true if and only if three conditions hold. At least `size()` instructions remain from `st`. Every aligned stream opcode is registered with the pattern's id. Every two positions sharing a slot carry equal bit strings once the earlier one is non-empty. It only reads the table. |
| Patterns.UnreachedArgumentsFit | owaa_dict.cpp:183-185 | `ArgumentsFit` does not demand argument vectors `match` never reaches. A pattern whose first opcode fails may name a slot that the second stream instruction does not have. |
| Profiles.Bump | owaa_dict.cpp:269 | `m[element]++`: the element's count rises by one (from 0 if absent), no other count changes, and only the element can become a new key. |
| Profiles.CountsAreMultiplicities | owaa_dict.cpp:264-272 | After any history of adds, each count is the pattern's multiplicity in the history, and the keys are exactly the added patterns. |
| Profiles.SumCountsBump | owaa_dict.cpp:268-271 | One add raises the sum of the counts by exactly one. |
| Profiles.CountsTotal | owaa_dict.cpp:264-272 | The counts of a history add up to its length. |
| Profiles.FrequencyMap.constructor | owaa_dict.cpp:264-266 | A new profile has no counts and total 0. |
| Profiles.FrequencyMap.Add | owaa_dict.cpp:268-271 | `add`: the element's count is bumped, `n` rises by one, and the history gains the element. |
| Profiles.ProfileTotals | owaa_dict.cpp:264-272 | In a profile, `n` is the number of adds and the sum of the counts, and each count is that pattern's multiplicity. |
| Dictionary.FirstFitFrom | owaa_dict.cpp:217-218 | The index found, from j on, fits the line and no earlier one from j does. -1 means none fits. |
| Dictionary.FirstFit | owaa_dict.cpp:217-218 | The first template, in table order, whose `matchString` the line passes, or -1. |
| Dictionary.TemplateOf | owaa_dict.cpp:218-220 | The template a line is read with has the line's length. |
| Dictionary.LineStep | owaa_dict.cpp:221-235 | Position k of a line. It adds one slot exactly when an argument starts there, and none at a literal or inside a run. |
| Dictionary.LineAfter | owaa_dict.cpp:219-235 | The first k positions of a line give one slot per argument run among them. |
| Dictionary.FreshElements | owaa_dict.cpp:226-231 | The letters new to the block on a line are exactly those of the line outside the block's map. |
| Dictionary.FieldLetterCount | owaa_dict.cpp:226 | A line has one field letter per argument run of its template. |
| Dictionary.LineMapFacts | owaa_dict.cpp:220-236 | After a line: one slot per field letter; the block's map keeps its old entries and gains exactly the line's letters; each field's slot is its letter's entry in the map. |
| Dictionary.LineFreshFacts | owaa_dict.cpp:219-232 | The q-th letter new to the block on a line gets slot q, and the per-line counter ends at the number of such letters. A letter already in the map reuses its slot. |
| Dictionary.ReadLine | owaa_dict.cpp:219-236 | The loop over the template's positions ends in exactly the line state `LineAfter` describes, and builds the template's literal opcode. |
| Dictionary.LineParsed | owaa_dict.cpp:216-246 | One line appends exactly one instruction and keeps the earlier ones. A line that fits no template appends `Unfitted` (opcode 0, no arguments) and changes neither the map nor the table. |
| Dictionary.BlockAfter | owaa_dict.cpp:215-247 | After i lines the block holds one instruction per line. |
| Dictionary.ParsedPattern | owaa_dict.cpp:211-249 | A whole block gives one instruction per line. |
| Dictionary.ParseLine | owaa_dict.cpp:216-246 | One line, for any line. The instruction pushed first is `Unfitted`. If some template fits, the first one is found, its opcode is interned in the table, and that instruction is replaced by one whose slots come from the shared map. If none fits, `Unfitted` stays and the map and table are unchanged. The result is exactly `LineParsed`, and the table stays dense. |
| Dictionary.ParsePattern | owaa_dict.cpp:211-249 | `parsePattern`, for any block, returns exactly the block-parse instructions and leaves the table as that parse leaves it. The table stays dense. |
| Dictionary.RecordsKept | owaa_dict.cpp:214-246 | What a block state records about an earlier line survives later lines, because the map and the table only grow. |
| Dictionary.LineRecords | owaa_dict.cpp:216-246 | Parsing line l appends an instruction that records the line. For a fitting line, its opcode is the table id of the template's literals, and its slots are the map entries of the line's field letters, one per argument run. For a line that fits nothing, it is `Unfitted`. The table stays dense and the map and table keep earlier entries. |
| Dictionary.BlockFacts | owaa_dict.cpp:215-247 | After any i lines, fitting or not: one instruction per line, each still recording its line (`Unfitted` for a line that fits nothing), with a dense table that kept every earlier id. |
| Dictionary.ParsedPatternFacts | owaa_dict.cpp:211-249 | The whole block, for any lines: one instruction per line, each recording its line (`Unfitted` for a line that fits nothing), existing opcode ids unchanged, and the table dense. |
| Dictionary.SlotCollision | owaa_dict.cpp:219-231 | Template `0a` on the lines `0b` and `0c` gives two instructions that both use slot 0, although `b` and `c` are different letters. |
| Tokenizer.FirstPatternFrom | owaa_dict.cpp:347-348 | The pattern chosen at a stop is -1 or an index from j on. |
| Tokenizer.FirstPatternMatches | owaa_dict.cpp:347-348 | The chosen pattern matches at the stop. |
| Tokenizer.FirstPatternEarlier | owaa_dict.cpp:347-348 | No pattern before the chosen one (or any, when none is chosen) matches at the stop. |
| Tokenizer.FindPattern | owaa_dict.cpp:347-352 | The inner loop stops at exactly the first pattern, in dictionary order, that matches at i, or finds none. |
| Tokenizer.TokenizeStop | owaa_dict.cpp:346-354 | One stop of the outer loop keeps the loop invariant. The tokens recorded so far, followed by those of the remaining stops, are all the tokens. The position moves strictly forward within the code. |
| Tokenizer.TokenStep | owaa_dict.cpp:346-354 | Each stop moves strictly forward and stays within the code, and records its pattern, if any, before the later stops. |
| Tokenizer.TokensStep | owaa_dict.cpp:346-354 | A stop keeps the loop invariant: the recorded tokens followed by those of the remaining stops are all the tokens. |
| Tokenizer.MapDictionaryPatterns | owaa_dict.cpp:342-356 | With non-empty patterns the loop terminates, and the profile's history is exactly the patterns recorded at the stops. |
| Tokenizer.UntriedPatternFits | owaa_dict.cpp:347-352 | `DictionaryFits` does not demand anything of a pattern that is never tried. Once an earlier pattern matches, a later pattern may name a slot that the stream instruction does not have. |
| Tokenizer.StopsFrom | owaa_dict.cpp:345-355 | The stops of the tokenizer loop from position i on. It is a definition with no contract; its properties are stated by `Tokenizer.StopsChain` and `Tokenizer.StopsCover`. |
| Tokenizer.Tokens | owaa_dict.cpp:345-355 | The patterns recorded at the stops, in order. It is a definition with no contract; `Tokenizer.MapDictionaryPatterns` and `Tokenizer.Coverage` state what it means. |
| Tokenizer.StopsChain | owaa_dict.cpp:345-355 | The stops start at i, each follows the previous by its advance, the last ends exactly at the end of the code, and each holds the first pattern that matches there. |
| Tokenizer.StopsCover | owaa_dict.cpp:345-355 | The advances of the stops add up to the rest of the code. |
| Tokenizer.CoveredSplits | owaa_dict.cpp:347-354 | Each stop either records a pattern and covers its length, or skips one instruction. |
| Tokenizer.Coverage | owaa_dict.cpp:342-356 | The matched pattern lengths plus the skipped instructions equal `code.size()`. |
| Tokenizer.TokenizerTotals | owaa_dict.cpp:342-356 | The profile's total `n` is the number of recorded matches and the sum of the counts. |
| NGrams.InternAll | owaa_ngram.cpp:166-175 | Interning a sequence of values gives one slot per value. |
| NGrams.InternAllGrows | owaa_ngram.cpp:166-175 | Interning values keeps a table dense and its earlier ids, and adds exactly the values. |
| NGrams.InternAllIds | owaa_ngram.cpp:167-174 | Every value ends up in the map with the slot it was given. |
| NGrams.InternAllCount | owaa_ngram.cpp:154-155 | From an empty map the keys are the distinct values, and the counter is their number. |
| NGrams.InternAllPrefix | owaa_ngram.cpp:166-175 | Interning a prefix gives the prefix of the slots. |
| NGrams.FirstSeenNumbering | owaa_ngram.cpp:154-175 | From an empty map, two values get the same slot if and only if they are equal. A value seen for the first time gets the number of distinct values before it. |
| NGrams.WindowAfter | owaa_ngram.cpp:156-176 | Reading a window gives one instruction per window instruction. |
| NGrams.WindowAt | owaa_ngram.cpp:153-177 | The window of len instructions in place has len instructions. |
| NGrams.WindowRange | owaa_ngram.cpp:153-177 | The constructor yields `en - st` instructions for a range inside the code, and none when `st >= en`. |
| NGrams.WindowRangeStep | owaa_ngram.cpp:156-176 | One more iteration of the constructor's loop reads one more instruction. |
| NGrams.WindowAtIsAfter | owaa_ngram.cpp:153-177 | Reading in place is reading the slice. |
| NGrams.WindowRangeIsAfter | owaa_ngram.cpp:153-177 | The constructor's range is the slice `arr[st..en)`. |
| NGrams.InternArguments | owaa_ngram.cpp:166-175 | The argument loop looks each value up in, or adds it to, the window's map, exactly as `InternAll`. |
| NGrams.NewWindow | owaa_ngram.cpp:153-177 | The constructor returns exactly the instructions of the window read, and leaves the table that reading leaves. The table stays dense. |
| NGrams.WindowStep | owaa_ngram.cpp:157-175 | One instruction of the window constructor, as a value. It is a definition with no contract; `NGrams.WindowStepTables` and `NGrams.WindowShape` state its properties. |
| NGrams.WindowStepTables | owaa_ngram.cpp:157-175 | One instruction keeps both tables dense and their ids, and registers its opcode. |
| NGrams.WindowTables | owaa_ngram.cpp:153-177 | A window keeps the opcode table dense with every earlier id, and its argument map is dense. |
| NGrams.WindowOpCodesKnown | owaa_ngram.cpp:158-165 | Every opcode of the window ends up in the table, which keeps every earlier entry. |
| NGrams.WindowShape | owaa_ngram.cpp:153-177 | Instruction k has as many argument slots as `arr[st+k].arguments`, and its opcode is the table id of `arr[st+k].opCode`. |
| NGrams.InternAllAppend | owaa_ngram.cpp:166-175 | Interning xs, then ys, is interning xs + ys. |
| NGrams.WindowNumbering | owaa_ngram.cpp:154-175 | The window's argument map and slots are the first-seen numbering of all its argument values. |
| NGrams.WindowArguments | owaa_ngram.cpp:154-175 | Within a window, two argument positions share a slot if and only if their bit strings are equal. A newly seen value gets the number of distinct values seen before it in the window. |
| NGrams.ArgumentsIgnoreTable | owaa_ngram.cpp:154-175 | The argument numbering does not depend on the opcode table. |
| NGrams.WindowAgain | owaa_ngram.cpp:153-187 | Re-reading a window with a table that kept the first reading's ids gives the same instructions, because assigned ids never change. |
| NGrams.EqualWindows | owaa_ngram.cpp:153-187 | The same instructions read twice in a row give equal patterns. |
| NGrams.WindowsFrom | owaa_ngram.cpp:262-263 | After m windows, there are m patterns. |
| NGrams.LoopTest | owaa_ngram.cpp:262 | The test `i <= code.size() - n` admits exactly max(0, size - n + 1) windows. |
| NGrams.MapNGramsWithN | owaa_ngram.cpp:260-265 | `mapNGramsWithN` adds the patterns of every window of length n, in order, and leaves the table that reading them leaves. |
| NGrams.WindowsStep | owaa_ngram.cpp:262-263 | One more window keeps the table's entries and the earlier patterns. |
| NGrams.WindowsExtend | owaa_ngram.cpp:262-263 | Later states keep every opcode id and every earlier pattern. |
| NGrams.WindowsLast | owaa_ngram.cpp:262-263 | Window q's pattern and table come from reading the range `[q, q + n)`. |
| NGrams.PatternKept | owaa_ngram.cpp:262-263 | Once read, window q's pattern stays the q-th of every later state. |
| NGrams.RangeAgain | owaa_ngram.cpp:153-187 | An equal range read again with a table that kept the first reading's ids gives the same instructions. |
| NGrams.SameWindowPattern | owaa_ngram.cpp:153-187 | Windows with equal instructions give equal patterns, wherever they are in the code. |
| NGrams.ProfileEqualWindows | owaa_ngram.cpp:260-265 | Within a profile, windows with equal instructions are one pattern (`operator==`-equal). |
| NGrams.TwiceCounted | owaa_ngram.cpp:202-210 | A pattern added twice has count at least 2. |
| NGrams.ProfileCountsEqualWindows | owaa_ngram.cpp:202-265 | In a profile, windows with equal instructions share one count, which is at least 2. |
| NGrams.WindowsShape | owaa_ngram.cpp:260-265 | Each pattern of a profile has n instructions (none when n <= 0). |
| NGrams.ProfileShape | owaa_ngram.cpp:202-265 | A profile's `n` is max(0, size - n + 1), which is also the sum of its counts, and each pattern has n instructions. |
| NGrams.NGramsFrom | owaa_ngram.cpp:296-298 | After k window lengths there are k profile histories. |
| NGrams.NGramsStep | owaa_ngram.cpp:297-298 | One more window length adds its profile, read from the table the shorter lengths left. |
| NGrams.NextProfile | owaa_ngram.cpp:296-298 | One iteration of `mapNGrams`: a new profile holding the windows of length n, with the history and table advanced by exactly one length. |
| NGrams.MapNGrams | owaa_ngram.cpp:293-300 | `mapNGrams` returns `MAX_N - MIN_N + 1` = 10 valid profiles, entry k holding the windows of length `MIN_N + k`, with one shared table. Every profile is a newly allocated object, and no two entries are the same object. |
| NGrams.DistinctPairwise | owaa_ngram.cpp:293-300 | The distinctness `MapNGrams` promises means that any two different positions hold different profile objects. |
| NGrams.NGramsAt | owaa_ngram.cpp:295-300 | Entry k is the profile of the windows of length `MIN_N + k`, read from the table the shorter lengths left. |
| NGrams.NGramShapes | owaa_ngram.cpp:293-300 | Entry k counts max(0, size - (MIN_N + k) + 1) windows, each a pattern of `MIN_N + k` instructions. |

## Left out

- File I/O, console output and `main`:
  - `BitInputStream`'s file reads (only its bit order is modelled, by `Formats.StreamBits`).
  - `parseFormats` and the `getline`/`eof` loop of `parseDictionary`.
  - `main`'s argument checks, pair enumeration and printing.
  - The model takes a bit sequence, a sequence of templates and a sequence of block lines instead.
- `sqr`, `frequencyDistance`, `frequencyDistanceSquared`, `frequencyDistanceTotal`, the 0.5 threshold and the percentages: these are floating-point numerics with `sqrt`.
- `unordered_map` internals: hashing into buckets and the use of the hash by the maps. The maps are Dafny `map`s. Only hash/equality consistency is stated.
- `size_t` overflow everywhere except the hash folds (which do wrap modulo 2^64), and `int` overflow of the counters and indices. Counters are unbounded `nat`s.
- Outside `bitstring.dfy`, bit strings are values (`seq<bit>`) rather than `BitString` objects, relying on `BitStrings.RepresentationIsExact`. Copies and temporaries of `BitString` objects are not modelled.
- The `char` sign extension in `getBit` is not modelled: only the bit below position 8 is read, which sign extension cannot change.
- Tokenizer.MapDictionaryPatterns: requires every dictionary pattern to be non-empty.
  - An empty pattern comes from consecutive blank lines in `parseDictionary` (`owaa_dict.cpp:312-314`).
  - It matches everywhere, so the source's `i += size() - 1; i++` makes no progress and the loop never ends.
- Patterns.MatchAt: requires `ArgumentsFit`: the argument reads `match` actually reaches stay inside the stream instruction's argument vector. In the source such a read is out of range (`owaa_dict.cpp:191-192`).
  - A read of argument j of instruction i is reached only when enough instructions remain, the opcodes of instructions 0 to i agree, and no earlier position clashed.
  - Nothing is demanded of positions after the first failure (`Patterns.UnreachedArgumentsFit`).
- Tokenizer.FindPattern: requires `ArgumentsFit` only for the patterns tried at the stop, up to and including the first that matches.
- Tokenizer.MapDictionaryPatterns: requires `DictionaryFits`, the same condition at each stop the loop visits. Untried patterns and positions skipped over are unconstrained (`Tokenizer.UntriedPatternFits`).
- NGrams.NewWindow: requires that a non-empty range `[st, en)` lies inside the code. `mapNGramsWithN` only builds such ranges, and any other range reads out of bounds in the source.
- NGrams.WindowRange: a range that leaves the code is read as no instructions. This keeps the model total. The source never builds such a range.
