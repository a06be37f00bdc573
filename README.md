# rseq_rs in Dafny

A model of the core of rseq_rs, a Rust toolkit for RSEQ, the sequenced-music
format in which Nintendo Wii games store their background music. The model
covers five areas.

- **Byte codec.** Fixed-width integers in either byte order, the `RSEQ`
  container with its `DATA` and `LABL` sections, and the variable-length
  instruction stream inside `DATA`. This includes the varint, the
  un-labelled bytes, and the labels that name positions in the stream.
- **Writer.** The cookie-factory write context that the generators drive. It
  is a class with a byte buffer and a position that can seek backwards to
  fill a placeholder.
- **Player.** The interpreter of `src/bin/play.rs`, which turns a decoded
  stream into MIDI tracks.
- **Tempo tool.** The rescale of `src/bin/tempo.rs`.
- **Invert tool.** The note inversion of `src/bin/invert.rs`.

Modules follow the source files:

| Dafny module | source file |
|---|---|
| `Common` | integer widths, shared types |
| `Gen` | `src/gen.rs`, plus the `Writer` class |
| `Parse` | `src/parse.rs` |
| `Instructions` | `src/instructions/mod.rs` |
| `InstrParser` | `src/instructions/bin/parser.rs` |
| `InstrGen` | `src/instructions/gen.rs` |
| `ContainerParser` | `src/container/parser.rs` |
| `ContainerGen` | `src/container/gen.rs` |
| `PlayEvents`, `PlayNotes`, `PlayUser`, `PlayExec` | `src/bin/play.rs`, as value-level functions |
| `PlayTrack` | `src/bin/play.rs`'s `Track`, as a class whose methods are proved equal to those functions |
| `TempoStretch` | `src/bin/tempo.rs` |
| `Invert` | `src/bin/invert.rs` |

The round-trip proofs live in three modules of their own:

| module | proves |
|---|---|
| `RoundTrip` | each instruction decodes back to itself |
| `StreamTrip` | a whole stream decodes back to itself |
| `ContainerTrip` | a whole file decodes back to its contents |

Decoders are functions from bytes to an `Option` or `Result` paired with the
rest of the input. The source's loops are methods with invariants:

- the `varint` fold;
- the two passes of `gen_instructions`;
- the record and offset loops of `gen_labl_section`;
- the player's release loop and run loop;
- the rewrite loops of the tempo and invert tools.

Each of these methods is proved equal to a specification function. The
properties are proved about those functions.

Rust's unsigned and signed integers are subset types of `int`. Where the
source truncates (`as u32`, `as u64`), the model reduces explicitly. Where a
debug build of the source panics, the model returns an error value. Such
panics include:

- overflow of `tick_pos + len` or of the 16-bit variable arithmetic;
- division by zero;
- an index out of range;
- `unwrap` of `None`;
- the `unimplemented!` for an unlabelled address.

## Model

| member | source | states |
|---|---|---|
| Gen.GU32Value | src/gen.rs:8-13 | the four bytes `gu32` writes read back, in the same byte order, as the value written |
| Gen.GU24Value | src/gen.rs:15-20 | the three bytes `gu24` writes read back as the value modulo 2^24: the top byte of the u32 is dropped |
| Gen.GU16Value | src/gen.rs:22-27 | the two bytes `gu16` writes read back as the value written |
| Gen.MirroredOrders | src/gen.rs:8-27 | big-endian output is little-endian output reversed; the first byte is the most significant one (big) or the least significant one (little) |
| Gen.Padding | src/gen.rs:83-90 | the pad `gen_align` writes is smaller than the alignment, makes the position a multiple of it, and is zero exactly when the position is already aligned |
| Gen.Writer.Put | src/gen.rs:29-34 | a plain serializer overwrites the bytes at the current position (extending the stream if needed) and advances past them |
| Gen.Writer.PutCounted | src/gen.rs:36-41 | `gen_len` returns exactly the number of bytes its inner serializer wrote |
| Gen.Writer.Reserve | src/gen.rs:74-81 | `gen_placeholder` returns the old position and seeks `n` bytes forward; a seek past the end is materialised as zeros |
| Gen.Writer.Fill | src/gen.rs:61-71 | `Placeholder::gen` writes at the saved position and returns to the current position |
| Gen.Writer.Align | src/gen.rs:83-90 | after `gen_align` the position is aligned, it moved less than one alignment (not at all if already aligned), and only zeros were written |
| Gen.Overwrite | src/gen.rs:61-71 | writing at a position keeps the stream length unless the write runs past the end |
| Gen.OverwriteTwice | src/gen.rs:61-71 | two consecutive writes equal one write of their concatenation |
| Parse.PU32 | src/parse.rs:9-11 | succeeds exactly on inputs of at least four bytes; yields their value in the given byte order and the rest |
| Parse.PU16 | src/parse.rs:13-15 | succeeds exactly on inputs of at least two bytes; yields their value and the rest |
| Parse.PI16 | src/parse.rs:17-19 | succeeds exactly when `pu16` does; the result is that u16 reinterpreted in two's complement, negative exactly when its top bit is set |
| Parse.PU24 | src/instructions/bin/parser.rs:41 | a three-byte read: succeeds exactly on three or more bytes, with a value below 2^24 |
| Parse.ReadWrite32 | src/parse.rs:9-11 | `pu32` inverts `gu32` in both byte orders, leaving any following bytes |
| Parse.WriteRead32 | src/parse.rs:9-11 | `gu32` of the value `pu32` read reproduces the four bytes read |
| Parse.ReadWrite16 | src/parse.rs:13-15 | `pu16` inverts `gu16` |
| Parse.WriteRead16 | src/parse.rs:13-15 | `gu16` of the value read reproduces the two bytes |
| Parse.ReadWriteI16 | src/parse.rs:17-19 | `pi16` inverts `gu16` of an i16 cast to u16 |
| Parse.ReadWrite24 | src/instructions/bin/parser.rs:41 | `pu24` inverts `gu24` up to the dropped top byte |
| Parse.WriteRead24 | src/instructions/bin/parser.rs:41 | `gu24` of the value read reproduces the three bytes |
| Instructions.U8ParamTable | src/instructions/mod.rs:42-76 | the U8 parameter opcodes are exactly the listed tag ranges; decode and encode of the table are mutually inverse |
| Instructions.U16ParamTable | src/instructions/mod.rs:79-85 | the U16 parameter table: decodes exactly its four opcodes, mutually inverse with encoding |
| Instructions.UserOpTable | src/instructions/mod.rs:88-108 | the user operation codes are exactly 0x80-0x8B, 0x90-0x94, 0x96 and 0xE0 (0x95 is not one); decode and encode are mutually inverse |
| Instructions.TagDeterminesFamily | src/instructions/mod.rs:14-39 | two well-formed instructions with the same tag are of the same kind, and a parameter instruction's tag fixes its parameter |
| InstrParser.TakeTill | src/instructions/bin/parser.rs:16 | `take_till` stops at the first byte with bit 0x80 clear, or at the end of the input |
| InstrParser.ParseVarint | src/instructions/bin/parser.rs:15-23 | succeeds exactly when some byte has bit 0x80 clear; consumes every leading continuation byte and that first terminating byte; the value is the 7-bit fold of the consumed bytes, first byte most significant, kept to 64 bits as `<<` on a u64 does |
| InstrParser.Varint | src/instructions/bin/parser.rs:15-23 | the loop over the continuation bytes, followed by the last shift, computes `ParseVarint` |
| InstrParser.VarintOneByte | src/instructions/bin/parser.rs:158-159 | `[0x70, 0x80]` reads 0x70 and leaves `[0x80]` |
| InstrParser.VarintThreeBytes | src/instructions/bin/parser.rs:160 | `[0x8F, 0x80, 0x00, 0x14]` reads `0xF << 14` and leaves `[0x14]` |
| InstrParser.VarintTruncated | src/instructions/bin/parser.rs:15-16 | a varint with no terminating byte is not matched |
| InstrParser.ParseUserProc | src/instructions/bin/parser.rs:25-38 | 0xF0's payload: an op byte, then (except for `User`, which fixes the variable to 0xFF) a variable byte, then an i16; a short i16 is `Incomplete`, an unknown op byte no match |
| InstrParser.ParseDestination | src/instructions/bin/parser.rs:40-45 | three address bytes: a known address decodes to its label; an unknown one is `Unresolved`, which stands for the `unimplemented!` panic; fewer than three bytes is no match |
| InstrParser.ParseNote | src/instructions/bin/parser.rs:52-55 | a note tag is followed by a velocity byte and a varint length |
| InstrParser.ParseLength | src/instructions/bin/parser.rs:57-58 | 0x80 and 0x81 carry one varint |
| InstrParser.ParseBranch | src/instructions/bin/parser.rs:60-62 | 0x88 carries a track byte and a destination; 0x89 and 0x8A carry a destination |
| InstrParser.ParseCounted | src/instructions/bin/parser.rs:66-68 | 0xD4 and 0xD6 carry one byte |
| InstrParser.ParseParam | src/instructions/bin/parser.rs:77-84 | a U8 parameter carries one byte and a U16 parameter a u16; the result is `Incomplete` exactly for a U16 opcode with fewer than two bytes left |
| InstrParser.ParseInstr | src/instructions/bin/parser.rs:47-88 | a decoded instruction is well-formed, carries the tag it was read from and consumed at least that byte; `Unresolved` names an address with no label; `Incomplete` arises only from 0xF0 or a U16 opcode; empty input is no match |
| InstrParser.DispatchTable | src/instructions/bin/parser.rs:50-87 | every tag either has an arm or is an unknown opcode, and an unknown one is no match; a decoded note, U8 parameter or U16 parameter came from a note tag, a U8 opcode or a U16 opcode respectively, and only from it |
| InstrParser.NextToken | src/instructions/bin/parser.rs:124-147 | the `alt` of one instruction or one raw byte: a token always advances the position; a raw byte is the byte at the position; a decoded instruction is well-formed; an abort for a missing label names an address that has no label |
| InstrParser.ScanWellFormed | src/instructions/bin/parser.rs:118-150 | every instruction in a successfully decoded stream is well-formed |
| InstrParser.ParseInstructions | src/instructions/bin/parser.rs:118-150 | the inlined `many0`: succeeds exactly when the scan of the input does, leaves no input, and yields the scanned tokens with each label inserted before the token at its offset; on failure it keeps the scan's error |
| InstrGen.EncodeVarint | src/instructions/gen.rs:16-23 | the encoding has `VarintLength(v)` bytes, and byte `k` is the 7-bit group of the value at that place with bit 0x80 set on all groups but the last |
| InstrGen.VarintLengthMinimal | src/instructions/gen.rs:17-19 | the encoding uses between one and ten bytes and is the shortest that holds the value |
| InstrGen.SigBitsBound | src/instructions/gen.rs:17 | `64 - leading_zeros` is the number of significant bits: at most `m` exactly when the value is below 2^m |
| InstrGen.VarintEncodeMax28 | src/instructions/gen.rs:129-135 | 0x0FFFFFFF encodes as `FF FF FF 7F` |
| InstrGen.VarintEncodeSpread | src/instructions/gen.rs:129-135 | 0x08000090 encodes as `C0 80 81 10` |
| InstrGen.VarintEncodeZero | src/instructions/gen.rs:18-19 | zero has a one-byte encoding |
| InstrGen.DestBytes | src/instructions/gen.rs:113-121 | a destination always takes three bytes: a reserved slot or a patched label address for a label, the address for an address |
| InstrGen.TokenShape | src/instructions/gen.rs:79-97 | in a token with a destination, the three destination bytes are the last ones and are the only ones patching changes |
| InstrGen.TokenFill | src/instructions/gen.rs:62 | writing the 24-bit address into a token's reserved slot gives the token as encoded with that address |
| InstrGen.GenVarint | src/instructions/gen.rs:16-23 | writes the varint encoding at the end of the stream |
| InstrGen.GenDestination | src/instructions/gen.rs:113-121 | writes three bytes; a label destination yields a placeholder at the old position carrying its name, an address destination no label info |
| InstrGen.GenPayload | src/instructions/gen.rs:80-97 | writes an instruction's operand bytes; the label info names the placeholder of its destination, if it has a label one |
| InstrGen.GenOptionalInst | src/instructions/gen.rs:72-102 | writes a token's bytes (nothing for a label) and returns the label info for that position |
| InstrGen.DefsBounds | src/instructions/gen.rs:48-49 | a label's recorded offset lies inside the stream written so far, and only named labels are recorded |
| InstrGen.RecordStep | src/instructions/gen.rs:46-53 | one step of the first pass: a label sets its name's offset, a destination appends a placeholder to its name's list, and every other name's entry is unchanged |
| InstrGen.RecordingEntry | src/instructions/gen.rs:43-55 | after the first pass the map has an entry for exactly the names that occur, each holding the last definition's offset and every placeholder in stream order |
| InstrGen.WriteTokens | src/instructions/gen.rs:44-55 | the first loop appends the unpatched encoding of the whole stream and builds exactly that label map |
| InstrGen.EmitComplete | src/instructions/gen.rs:59-66 | once every placeholder has been filled, the buffer is the stream with every destination resolved |
| InstrGen.PatchLabels | src/instructions/gen.rs:59-68 | the second pass fails exactly on a name that is used but never defined; on success every placeholder holds its label's address and the list pairs each defined name with its offset exactly once |
| InstrGen.GenInstructions | src/instructions/gen.rs:40-70 | succeeds exactly when every used label is defined; then the buffer gains the encoding of the stream with resolved destinations, and the returned list is the label table |
| ContainerParser.ParseTag | src/container/parser.rs:54 | `tag` succeeds exactly on a matching prefix and consumes it |
| ContainerParser.ParseBom | src/container/parser.rs:38-43 | succeeds exactly on either marker, and the marker is the one for the byte order found |
| ContainerParser.BomRoundTrip | src/container/parser.rs:38-43 | `bom` inverts the generator's `bom` |
| ContainerParser.BomVectors | src/container/parser.rs:102-106 | `FF FE` is little endian, `FE FF` big endian, and `FE FE` no marker |
| ContainerParser.ParseLabel | src/container/parser.rs:45-51 | succeeds exactly when the eight header bytes and the announced length of name bytes are present; yields the address, the raw name and the rest |
| ContainerParser.ParseEntry | src/container/parser.rs:62-63 | an offset entry succeeds exactly when the offset lies within the section's relative bytes and a label parses there |
| ContainerParser.ParseLabels | src/container/parser.rs:61-64 | `count` of entries: on success it has the announced number of labels, and label `i` is what entry `i` of the offset table points at |
| ContainerParser.ParseLablSection | src/container/parser.rs:53-67 | needs the `LABL` tag (else `BadTag`) and a length of at least 8 (else the subtraction's panic); then it is the `count` over the offset table, with offsets taken relative to byte 8 of the section |
| ContainerParser.Check16 | src/container/parser.rs:75-79 | a `verify`ed u16 field succeeds exactly when it holds the expected value |
| ContainerParser.ParseHeader | src/container/parser.rs:72-81 | succeeds exactly on a header of 0x20 bytes with magic, a marker, version 0x100, header size 0x20 and two sections; yields the byte order and the two sections' offsets and lengths; bad magic is `BadMagic` |
| ContainerParser.HeaderIgnoresFileSize | src/container/parser.rs:76 | the file-size field is read and ignored: any four bytes there give the same header |
| ContainerParser.ReadSections | src/container/parser.rs:83-85 | the data bytes are the slice the data section names, the labels parse from the slice the label section names, and a slice outside the file is an error |
| ContainerParser.ParseRseq | src/container/parser.rs:69-88 | a successful parse had a valid header, and bad magic is `BadMagic` |
| ContainerParser.ParseRseqSections | src/container/parser.rs:69-88 | a successful parse returns exactly the data slice and the parsed labels of the header's sections |
| ContainerGen.SectionImage | src/container/gen.rs:15-23 | a section is its name, its length, its body and the padding to 32 bytes |
| ContainerGen.RecordImage | src/container/gen.rs:54-60 | a label record is nine bytes plus the name, padded to 4 |
| ContainerGen.OffsetTable | src/container/gen.rs:65-70 | one four-byte offset per record |
| ContainerGen.SortByName | src/container/gen.rs:95 | sorts the labels by name and is a permutation of its input |
| ContainerGen.InsertSorted | src/container/gen.rs:95 | inserting into a name-sorted list keeps it sorted |
| ContainerGen.NameLeTotal | src/container/gen.rs:95 | the byte-wise name order is total (with `NameLeTrans` and `NameLeAntisym`, a linear order) |
| ContainerGen.CloseSection | src/container/gen.rs:18-20 | after the body and the alignment, filling the length slot with `len + 8` gives the section's image |
| ContainerGen.GenDataSection | src/container/gen.rs:25-42 | succeeds exactly when every label is defined; writes the `DATA` section around the header length 0xC and the encoded stream, and returns the label table |
| ContainerGen.GenRecords | src/container/gen.rs:52-63 | the record loop writes every record in order and returns the length of each |
| ContainerGen.GenOffsets | src/container/gen.rs:65-70 | the offset loop fills the reserved table with the offsets `4 + 4 * count` plus the lengths of the records before |
| ContainerGen.OffsetTableStep | src/container/gen.rs:67-68 | each step of that fold appends one offset, the running sum so far |
| ContainerGen.GenLablSection | src/container/gen.rs:44-75 | writes the `LABL` section image of the labels: count, offset table, records, padding |
| ContainerGen.FillHeader | src/container/gen.rs:101-109 | filling the section table and the file size gives the file image |
| ContainerGen.GenRseq | src/container/gen.rs:77-112 | succeeds exactly when every label is defined and `0x20 + data_len as u32` does not overflow (the other sizes are truncated to 32 bits by `as u32`); a missing label is reported by name; the labels are sorted by name and list the stream's labels; the buffer gains the file image |
| ContainerTrip.LablRoundTrip | src/container/parser.rs:53-67 | parsing the `LABL` image of a label list gives back those labels |
| ContainerTrip.FileRoundTrip | src/container/parser.rs:69-88 | parsing a file image gives back its data and labels, and its file-size field is the image's length |
| ContainerTrip.RseqRoundTrip | src/container/gen.rs:77-112 | `parse` inverts `gen_rseq`: it gives back the `DATA` section and the sorted labels, and the size field holds the file's length |
| RoundTrip.VarintRoundTrip | src/instructions/bin/parser.rs:15-23 | decoding the encoding of any u64 gives it back and leaves the following bytes |
| RoundTrip.UserOpRoundTrip | src/instructions/gen.rs:104-110 | a user operation decodes back to itself, except that `User`'s variable comes back as 0xFF because it is not written |
| RoundTrip.DestRoundTrip | src/instructions/gen.rs:113-121 | a label destination whose address the decoder's label map knows decodes back to that label |
| RoundTrip.InstrRoundTrip | src/instructions/bin/parser.rs:47-88 | every decodable instruction decodes from its own encoding, leaving the following bytes |
| StreamTrip.StreamRoundTrip | src/instructions/bin/parser.rs:118-150 | decoding the encoding of a reproducible stream, with the label map inverse to its label table, gives back the stream |
| StreamTrip.ScanStep | src/instructions/bin/parser.rs:131-146 | one loop step: the decoded token, the label due at the next offset, then the rest of the scan |
| PlayEvents.EmitKeeps | src/bin/play.rs:37-40 | `push_event` appends one event whose delta is the ticks since the last event, keeps the earlier events, and moves the last position to the clock |
| PlayEvents.NewTrackStarts | src/bin/play.rs:50-66 | a new track's only event is its track number at delta `tick_pos`; no notes, no stack, flag clear, all 48 variables zero |
| PlayNotes.SortByEndSpec | src/bin/play.rs:122 | the pending notes are sorted by descending end and are a permutation of the old ones |
| PlayNotes.DueShape | src/bin/play.rs:125-131 | the released notes are the suffix popped from the back, last first, and the next kept note ends after the rest |
| PlayNotes.DueMultiset | src/bin/play.rs:125-131 | the released and the kept notes together are the pending notes |
| PlayNotes.KeptAfter | src/bin/play.rs:125-131 | the kept notes remain sorted and all end after the rest |
| PlayNotes.DrainIs | src/bin/play.rs:125-131 | the release loop keeps the unreleased notes and appends one `NoteOff` per released note, each at the delta from the previous event, with the clock moving to the last end |
| PlayNotes.RestIsDrain | src/bin/play.rs:119-134 | a rest is the sort, the release loop up to `tick_pos + len`, then the clock set to `tick_pos + len` |
| PlayNotes.RestInv | src/bin/play.rs:119-134 | a rest keeps the track invariant |
| PlayNotes.RestPartition | src/bin/play.rs:119-134 | the notes released by a rest and those still pending are together the notes pending before it |
| PlayNotes.RestSplitsAtClock | src/bin/play.rs:119-134 | a rest releases exactly the notes that end by the new clock and keeps those that end after it |
| PlayNotes.OffEventsAt | src/bin/play.rs:126-130 | the `k`-th released note's `NoteOff` has the delta from the previous note's end |
| PlayNotes.FlushIs | src/bin/play.rs:232-234 | the flush appends one `NoteOff` per pending note in pending order; only the first carries a delta |
| PlayNotes.FinishFlushes | src/bin/play.rs:232-236 | ending a track flushes the pending notes, then appends `EndOfTrack`, leaving no pending notes |
| PlayUser.TruncDivRem | src/bin/play.rs:180 | Rust's truncating `/` and `%`: the quotient times the divisor plus the remainder is the dividend, and the remainder is smaller than the divisor in size |
| PlayUser.ShiftRightFloor | src/bin/play.rs:182-185 | an arithmetic right shift rounds toward negative infinity |
| PlayUser.BitXorTwice | src/bin/play.rs:192 | xoring twice with the same value restores it |
| PlayUser.CompareDuals | src/bin/play.rs:196-201 | the corrected comparisons: `Eq`/`Ne`, `Gt`/`Le` and `Lt`/`Ge` are complements; `Ge` is `Gt` or `Eq`; `Gt` is `Lt` with the operands swapped |
| PlayUser.ApplyArithmetic | src/bin/play.rs:177-180 | `+=`, `-=` and `*=` succeed exactly when the result fits an i16, and then set it; `/` and `%` by zero fail |
| PlayUser.ApplyDivision | src/bin/play.rs:180-195 | a nonzero divisor fails only for -32768 / -1; otherwise quotient and remainder recompose the dividend with a smaller remainder |
| PlayUser.ApplyShift | src/bin/play.rs:182-185 | a shift fails exactly for 16 places or more either way; a right shift is the floor of the division, a left shift the product modulo 2^16, equal to it when that fits |
| PlayUser.ApplyNot | src/bin/play.rs:194 | `!x` is `-x - 1` and never fails |
| PlayUser.ApplyXorTwice | src/bin/play.rs:192 | `^=` with the same immediate undoes itself |
| PlayUser.ApplyAndOr | src/bin/play.rs:190-191 | `&=` is commutative; or with -1 gives -1; and with -1 is the identity |
| PlayUser.ApplyKinds | src/bin/play.rs:175-202 | comparisons set only the flag; `Rand` sets 4, `Set` the immediate; `User` changes nothing; every other successful operation sets the variable |
| PlayUser.CmpGtAsWritten | src/bin/play.rs:198 | as written, `CmpGt` is the same as `CmpLt`: with a variable of 1 and an immediate of 0 it clears the flag, where the corrected `CmpGt` sets it |
| PlayUser.UserCallbackAsWritten | src/bin/play.rs:174 | as written, a `User` operation's index taken before the `match` fails for the decoded variable 0xFF; the corrected step leaves the track unchanged |
| PlayUser.UserStepEffect | src/bin/play.rs:173-204 | the corrected user step fails exactly on a variable index of 48 or more or a failing operation; otherwise it writes the variable or the flag the operation names and nothing else |
| PlayUser.UserStepInv | src/bin/play.rs:173-204 | a user step keeps the track invariant |
| PlayExec.LabelPositionsSpec | src/bin/play.rs:94-100 | the label map has exactly the labels of the program; each maps to a position holding that label, the last one when a name repeats, as `collect` into a `HashMap` keeps it |
| PlayExec.Target | src/bin/play.rs:141-164 | a destination resolves exactly when it is a label in the map; an unknown label is the map-index panic, an address destination the `unimplemented!` |
| PlayExec.ExecSkips | src/bin/play.rs:110-112 | a position past the program fails; a label or a raw byte only advances |
| PlayExec.IfSkips | src/bin/play.rs:167-170 | `If` skips the next instruction exactly when the flag is clear |
| PlayExec.JumpLandsOnLabel | src/bin/play.rs:148-156 | a jump fails exactly when the program has no such label, and otherwise lands on the label with nothing else changed |
| PlayExec.CallThenReturn | src/bin/play.rs:157-208 | a call pushes its position and goes to the label; the matching return pops it and resumes after the call |
| PlayExec.ReturnEmpty | src/bin/play.rs:206-208 | a return fails exactly on an empty stack |
| PlayExec.NoteStep | src/bin/play.rs:114-118 | a note fails exactly when its end overflows 64 bits; otherwise it emits `NoteOn` and adds the pending note ending at `tick_pos + len` |
| PlayExec.RestStep | src/bin/play.rs:119-134 | a rest fails exactly on clock overflow and otherwise moves the clock by `len`, leaving only notes that end later |
| PlayExec.ParamEvents | src/bin/play.rs:211-222 | pan, volume and expression emit controllers 10, 7 and 11; tempo emits `120000000 / value` and fails on zero; other parameters only advance |
| PlayExec.ForkStep | src/bin/play.rs:140-147 | a fork spawns a new track at the current clock and the label's position exactly when the label resolves |
| PlayExec.StepKinds | src/bin/play.rs:209 | only `EndOfTrack` ends a track, and only a fork spawns one |
| PlayExec.ExecInv | src/bin/play.rs:109-230 | one pass of the loop, running the corrected user step, keeps the track invariant for the track and any spawned track |
| PlayExec.RunTrack | src/bin/play.rs:109-230 | the inner loop, with the corrected user step and a fuel bound: finishing uses fuel |
| PlayExec.RunTrackInv | src/bin/play.rs:109-230 | a finished track stopped on `EndOfTrack` and it and every track it forked keep the invariant |
| PlayExec.FinishEnds | src/bin/play.rs:232-237 | a finished track keeps its events, starts with its track number and ends with `EndOfTrack` |
| PlayExec.RunAllWellFormed | src/bin/play.rs:105-238 | the outer loop, with the corrected user step, popping the last track each time: every track it completes starts with its number and ends with `EndOfTrack` |
| PlayExec.PlayWellFormed | src/bin/play.rs:94-238 | the whole player, with the corrected user step: every MIDI track it produces is well-formed |
| PlayExec.UserCallbackProgram | src/bin/play.rs:174 | on `[UserProcess(User, 0xFF, 0), EndOfTrack]` the pass as written stops at the variable index, while the corrected pass moves on |
| PlayExec.UserCallbackPlays | src/bin/play.rs:173-209 | with the corrected user step that program plays to its end |
| PlayTrack.Track.PushEvent | src/bin/play.rs:37-40 | the track's new state is the `Emit` of the kind |
| PlayTrack.Track.PushMidiEvent | src/bin/play.rs:42-44 | emits a MIDI message on the track's channel |
| PlayTrack.Track.PushControlEvent | src/bin/play.rs:46-48 | emits a controller message |
| PlayTrack.Track.PopNote | src/bin/play.rs:126-130 | one turn of the release loop |
| PlayTrack.Track.Release | src/bin/play.rs:125-131 | the release loop computes `Drain` |
| PlayTrack.Track.Rest | src/bin/play.rs:119-134 | computes `RestState`, which `RestIsDrain` and `RestPartition` characterise |
| PlayTrack.Track.Finish | src/bin/play.rs:232-236 | flushes and ends the track as `Finish` does |
| PlayTrack.Track.StepUser | src/bin/play.rs:173-204 | panics exactly when the corrected user step fails, with its fault; otherwise the track becomes its result |
| PlayTrack.Track.StepNote | src/bin/play.rs:114-118 | panics exactly on clock overflow; otherwise emits `NoteOn` and records the pending note |
| PlayTrack.Track.StepInst | src/bin/play.rs:113-225 | the instruction `match` agrees with `ExecInst`: same panics and faults, `EndOfTrack` stops unchanged, and otherwise the same state and spawned track |
| PlayTrack.Track.Step | src/bin/play.rs:110-229 | one pass agrees with `Exec` |
| PlayTrack.Track.Pass | src/bin/play.rs:109-230 | one pass, related to `RunTrack` with one unit of fuel less |
| PlayTrack.Track.Run | src/bin/play.rs:109-230 | the inner loop agrees with `RunTrack`: the same outcome, final state and spawned tracks |
| PlayTrack.RunTrackStep | src/bin/play.rs:109-230 | `RunTrack` unfolds one `Exec` step at a time |
| PlayTrack.PlayProgram | src/bin/play.rs:94-238 | the imperative player, with its work list of tracks, computes `Play` |
| TempoStretch.StretchFloor | src/bin/tempo.rs:22-24 | when the result fits 64 bits, `tempo_stretch` is the floor of `value * target / source` |
| TempoStretch.StretchSame | src/bin/tempo.rs:22-24 | stretching to the same tempo keeps the value |
| TempoStretch.CurrentIsNearest | src/bin/tempo.rs:33-42 | `current` at a position is the value of the nearest tempo change before it |
| TempoStretch.NoCurrentBeforeTempo | src/bin/tempo.rs:33-44 | no tempo change before a position means no current tempo there |
| TempoStretch.RetimeToken | src/bin/tempo.rs:37-48 | one token: a note or rest fails exactly without a usable current tempo (`unwrap` of `None`, or division by zero); a tempo change gets the target; a note keeps pitch and velocity and gets the stretched length, as does a rest; everything else is unchanged |
| TempoStretch.RetimeSame | src/bin/tempo.rs:43-44 | retiming at the target tempo leaves a note or rest unchanged |
| TempoStretch.RetimeOne | src/bin/tempo.rs:37-48 | the loop body computes `Retime` and updates `current` only at a tempo change |
| TempoStretch.RetimeUpToSucceeds | src/bin/tempo.rs:36-49 | the rewrite succeeds exactly when every token succeeds with the tempo current at it |
| TempoStretch.RetimeUpToAt | src/bin/tempo.rs:36-49 | on success, token `k` of the result is token `k` retimed with the tempo current at `k` |
| TempoStretch.RetimeUpToStops | src/bin/tempo.rs:36-49 | a failure at one point is a failure of every longer run: the panic ends the tool |
| TempoStretch.Retempo | src/bin/tempo.rs:33-49 | the in-place loop over the token array reports success exactly when the rewrite succeeds, and then leaves the array holding the rewrite |
| Invert.DecodedInRange | src/instructions/bin/parser.rs:52 | every note in a decoded stream has a key of at most 0x7F, so `0x7F - note` cannot underflow |
| Invert.MirrorToken | src/bin/invert.rs:27-31 | a note gets key `0x7F - key` with velocity and length kept; every other token is unchanged; mirroring twice restores the token |
| Invert.MirrorAll | src/bin/invert.rs:27-31 | the mirror of a stream is the token-wise mirror |
| Invert.MirrorInvolution | src/bin/invert.rs:27-31 | inverting twice restores the stream |
| Invert.InvertNotes | src/bin/invert.rs:27-31 | the in-place loop leaves the array holding the mirror of its old contents |

`PlayExec.Exec`, `RunTrack`, `RunAll`, `Play` and the `PlayTrack` class run
the corrected user step (`PlayUser.UserStep`), not the one in the source,
because of the two findings below. `PlayExec.ExecAsWritten` is the same
pass with the step as written.

## Left out

- Label names are raw bytes, so `String::from_utf8_lossy` (src/container/parser.rs:49) is not modelled. `ContainerParser.ParseLabel` returns the bytes, and names compare byte by byte.
- PlayNotes.SortByEnd: `sort_unstable_by` (src/bin/play.rs:122) may order notes with equal end ticks either way. The model fixes one order (an insertion sort), so the order of simultaneous `NoteOff` events is the model's choice. The contract states only that the result is sorted and a permutation.
- ContainerGen.SortByName: also stands for an unstable sort (src/container/gen.rs:95). Names in the label table are distinct map keys, so no ties arise and the order is unique.
- InstrGen.GenInstructions: the source returns its label list in `HashMap` iteration order (src/instructions/gen.rs:60-66). The model emits one order, and the contract states the list only as a set: each defined label once, with its offset.
- TempoStretch.Stretch: the `target` is an `f64` (src/bin/tempo.rs:17). The model takes it as one u16 used in both places. So `target as u128` (line 23) and `target as u16` (line 41) are the same number here, and fractional, negative or above-65535 targets, where Rust's saturating float casts differ, are not modelled.
- PlayEvents.Emit: midly's narrow types are not modelled. Event deltas are u32 (midly's u28, src/bin/play.rs:38), the tempo is u32 (midly's u24, line 220), and the program is u8 (midly's u7, line 138). midly's conversions into these narrower types are not applied.
- Rust panics are modelled with debug-build semantics: integer overflow, division by zero, a bad index and `unwrap` on `None` become error values. A release build's wrap-around is not modelled.
- PlayExec.Play: it carries a fuel bound, and `OutOfFuel` stands for a program that never ends. The source would loop forever.
- `Rand` sets the variable to 4, as the source's stub does (src/bin/play.rs:189); no randomness is modelled. `LoopStart` and `LoopEnd` are no-ops, as in the source (lines 171 and 205).
- Printing is not modelled: the progress messages, the warning for an executed raw byte, `PrintVar`, and the unimplemented parameter and command messages. The branches themselves are modelled; they only advance.
- File I/O, command-line options, the MIDI header (format, 96 ticks per beat) and `midi.save` are not modelled. The model's output is the list of event tracks.
- nom's error kinds, contexts and `VerboseError` are collapsed into small fault datatypes. The instruction parser keeps the three outcomes that matter to the `alt`/loop: no match (falls through or ends the stream), incomplete input (aborts), and an unlabelled address (the panic).
- ContainerParser.ParseLabel: the container parser's streaming reads (`u32!`) can fail with `Incomplete` rather than `Error`. The container parser only ever aborts, so both are one failure.
- InstrParser.ParseDestination: `pu24` is used by src/instructions/bin/parser.rs:41, but its definition is not part of this model. It is modelled as a complete three-byte read, where a short input is no match.
- The no-progress guard of the stream loop (src/instructions/bin/parser.rs:141-142) cannot fire. `NextToken` proves that every token advances, so the model has no branch for it.
- The step that turns a parsed container into the instruction list (src/container/mod.rs, src/lib.rs) is not part of this model. `InstrParser.Scan` is applied to the data bytes directly.
- PlayTrack: queued and forked tracks are `State` values in a sequence, as the Rust `Vec<Track>` owns them by value. Only the running track is a `Track` object.

## Findings

| source | as written | input that shows it | evidently intended | confidence | as-written member | corrected member |
|---|---|---|---|---|---|---|
| src/bin/play.rs:198 | `UserOp::CmpGt` sets the flag to `*var < imm`, the same test as `CmpLt` | `UserProcess { op: CmpGt, var, imm: 0 }` with the variable at 1: the flag is cleared | the flag is set when the variable is greater than the immediate | not executed | PlayUser.CmpGtAsWritten | PlayUser.CompareDuals |
| src/bin/play.rs:174 | `&mut track.variables[var as usize]` is taken before the `match`, so it also runs for `UserOp::User`. The parser always gives that op variable 0xFF (src/instructions/bin/parser.rs:31), which is past the 48 variables, so it panics | the stream `[UserProcess { op: User, var: 0xFF, imm: 0 }, EndOfTrack]` | a `User` callback prints and touches no variable, so the program plays to its end | not executed | PlayExec.UserCallbackProgram | PlayExec.UserCallbackPlays |
