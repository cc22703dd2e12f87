# AICL wire protocol and rings: a verified model

AICL is one binary message protocol implemented twice, in Python (`aicl/bin`) and in Rust (`core-rust/src`),
together with the rings and small state machines that carry the messages. This project models both
implementations in Dafny and proves what holds between an encoder and its decoder, between the two languages, and
over every run of the concurrent and stateful parts.

| part | files |
|---|---|
| bytes, varints, CRC-32, the 56-byte header | `Wire`, `Varint`, `Crc32`, `Frame` |
| what numbers, text, checksum and header are, in plain numbers | `Numerals`, `Utf8`, `CrcDivision`, `HeaderFormat` |
| the operand grammar, shared by both languages | `Operands`, `OperandLaws`, `OperandReading`, `OperandInterop`, `OperandWalk`, `ReadingLoops` |
| that grammar in plain numbers and by pieces | `OperandFormat`, `OperandPieces`, `MapCollects`, `IndexNumbers` |
| the Python codec | `PyOperands`, `PyFields`, `PyPacket`, `PyBuild`, `PyView`, `PyRoundTrip`, `PyRichFields`, `PyLostFields`, `PyBurst` |
| what Python writes, accepts and refuses, in plain numbers | `PyAcceptance`, `NameLists`, `FieldLayouts`, `FieldTags` |
| the streaming decoder | `Streaming`, `StreamingLaws` |
| the shared-memory ring (two processes) | `Modular`, `SharedRing`, `SharedMemoryRing` |
| the Rust codec and interoperation | `RustOperands`, `RustCodec`, `RustVendors`, `VendorTags`, `RustCodecLaws`, `RustAcceptance` |
| the Rust ring and the queue it refines | `LocalRing`, `LocalRingLaws`, `LocalRingSteps` |
| buffers, capabilities, gate, router | `Refcount`, `Capability`, `Gate`, `Router` |

How the model is built:

- Operands, packets, headers and frames are datatypes. One set of functions, with a `Lang` parameter where the two
  implementations differ, says what each of them writes and reads; the loops of the sources are methods proved
  against those functions. Rings, tables, routers and the streaming decoder are classes, proved against functions
  on their state, and the laws about runs are lemmas about these functions.
- Strings are their UTF-8 bytes with the validity rule of sections 3 and 4 of RFC 3629. Floats are bit patterns. Varints
  are unsigned LEB128 (section 7.6 of DWARF 5) cut to four bytes. CRC-32 is that of section 8 of RFC 1952, a shift
  register on bits and, apart from it, the remainder of a polynomial division. A map is the sequence of its entries: insertion order in Python, key order in Rust.
- The modules named "in plain numbers" state the wire format and the refusals without the tables and constants of the
  functions that they are about: literal tags, ranges, offsets and error cases, for all inputs.
- Python integers are unbounded, and `struct` raises when one does not fit. Rust's narrowing casts, wrapping
  counters and panics are written out; `usize` has 64 bits.
- Random ids, and the memory behind a shared segment, are inputs. Atomic operations are sequentially consistent
  steps.

Where the code and its documentation disagree, the model follows the code:

- `core-rust/README.md` calls the crate panic-free. `decode` panics on a bare header, and, in builds with overflow
  checks, when an operand index overflows; `RustCodecLaws.PanicsExactly` says exactly when.
- `RingBorrow` is documented as valid until the next pop. A pop does not invalidate it; a push does, after an exact
  number of others (`LocalRingLaws.WindowHolds`, `LocalRingLaws.WindowEnds`).
- `SlotHeader.flags_lo` is documented as the low byte of the flags and holds the high one
  (`LocalRingLaws.SlotHeaderOfFrame`).
- The Rust decoder has an error for unknown operand tags and never uses it: it reads them as Null
  (`OperandInterop.RustReadsUnassignedTags`); `OperandWalk.ReadersAgreeExactly` says exactly when the readers agree.
- The Rust encoder writes the tag of a vendor operand twice (`RustCodecLaws.VendorShifted`,
  `RustCodecLaws.VendorRejected`, `RustCodecLaws.ComesBackExactly`).
- A blob reference never comes back: it is packed in native layout, read as big-endian, and its parts are passed by
  position into the wrong fields (`PyLostFields.BlobNeverSurvives`). An acknowledgement comes back only if it is empty
  (`PyLostFields.AckSurvivesExactly`).
- A full capability table of an in-between capacity overwrites a live entry (`Capability.AlwaysWellExactly`).
- The per-operand index and count comparisons of Rust are made on 32 bits (`RustCodecLaws.FastPathsAgree`,
  `Gate.PassesExactly`).

## Model

| member | source | states |
|---|---|---|
| Varint.PyEncode | aicl/bin/varint.py:20-30 | the loop writes the four-group form of the value, cut off after four groups |
| Varint.PyDecode | aicl/bin/varint.py:33-49 | the loop computes the reference reading, with truncation and overflow as Python reports them |
| Varint.RustEncode | core-rust/src/codec.rs:341-360 | the same bytes as Python, appended to the buffer |
| Varint.RustDecode | core-rust/src/codec.rs:362-376 | the loop computes the reference reading, with Rust's order of errors |
| Varint.RoundTrip | aicl/bin/varint.py:20-49 | every value below 2^28 is read back, with any bytes after it, in both languages |
| Varint.DecodedIsMinimal | aicl/bin/varint.py:33-49 | every accepted varint, also an over-long one, is below 2^28 and re-encodes to no more bytes |
| Varint.LangsAgree | core-rust/src/codec.rs:362-376 | on all bytes, if either decoder accepts then both do, with the same value and length |
| Numerals.VarintSpelled | aicl/bin/varint.py:20-30 | a count below 2^28 is written as one to four bytes, only the last below 0x80, seven bits in each, lowest first, with no idle zero at the end |
| Numerals.VarintRead | aicl/bin/varint.py:33-49 | on all bytes: the first byte below 0x80 ends the number if it is among the first four, and its value is the sum of the groups; otherwise the exact error of each language |
| Numerals.BigEndianAppend | core-rust/src/codec.rs:60-74 | a big-endian number is worth the sum of its bytes by powers of 256, the first byte most |
| Utf8.ValidExactly | aicl/bin/operands.py:126 | a byte string passes for UTF-8 if and only if it spells a sequence of code points that are not surrogates |
| Crc32.BurstDetected | aicl/bin/validation.py:55-57 | two byte strings of equal length that differ, and only inside a window of four bytes, have different CRC-32 |
| CrcDivision.CrcIsRemainder | aicl/bin/validation.py:55-57 | for all data, bit i of the checksum on the wire is the complement of the coefficient of x^(31-i) in the remainder of the message times x^32, with the all-ones preset, divided by the generator with its 15 literal exponents |
| CrcDivision.CrcExactly | core-rust/src/codec.rs:613-617 | the same for any quotient and remainder whatever: preset message = quotient * generator + remainder has one solution, and it is the complement of the checksum |
| CrcDivision.DivisionDivides | core-rust/src/codec.rs:613-617 | long division gives such a quotient and remainder for every polynomial |
| Frame.HeaderReadBack | aicl/bin/header.py:81-110 | every header that fits is 56 bytes on the wire, with good magic and CRC, and reads back field by field |
| HeaderFormat.HeaderWritten | aicl/bin/header.py:3-15 | every header that fits: "AICL", then each field at its literal offset and width, zero padding, and the CRC of the first 52 bytes |
| HeaderFormat.FitsExactly | aicl/bin/header.py:70-90 | which headers fit, in literal ranges |
| PyOperands.EncodeSymbol | aicl/bin/operands.py:45-95 | the recursive encoder writes the reference encoding, and raises exactly on values that cannot be encoded |
| PyOperands.DecodeSymbol | aicl/bin/operands.py:98-181 | the cursor-passing decoder computes the reference parse at its position |
| PyOperands.DecodeSymbols | aicl/bin/operands.py:191-197 | the loop parses operands until the data is used up |
| OperandFormat.SignedWritten | aicl/bin/operands.py:37-43 | for each of the five signed tags, literally: the exact range that is accepted, the width, and the two's complement value of the bytes, in both languages |
| OperandFormat.UnsignedWritten | aicl/bin/symbol_types.py:13-35 | the same for the nine unsigned tags and bit patterns |
| OperandFormat.OnlyNumbersWritten | aicl/bin/operands.py:51-93 | no other tag carries a number |
| OperandFormat.SignedRead | core-rust/src/codec.rs:453-472 | from any bytes after a signed tag: truncated if they are too few, otherwise the number whose two's complement they are |
| OperandFormat.UnsignedRead | core-rust/src/codec.rs:473-502 | the same for the unsigned tags |
| OperandFormat.PlainWritten | aicl/bin/operands.py:53-67 | Bool, UUID and Null on the wire, with literal tag bytes and the exact values accepted |
| OperandFormat.BufRefWritten | aicl/bin/operands.py:72-74 | a buffer reference: literal tag, ranges, and its three numbers at their offsets |
| OperandFormat.StringsWritten | aicl/bin/operands.py:55-62 | Str, Bytes and vendor operands: literal tags, length in front, and the repeated tag that Rust adds |
| OperandFormat.ListWritten | aicl/bin/operands.py:75-78 | a list: literal tag, count, and the encodings of the items one after the other |
| OperandFormat.MapWritten | aicl/bin/operands.py:79-85 | a map: literal tag, count, and for each entry the length of the key, the key and the value |
| OperandFormat.PlainRead | aicl/bin/operands.py:112-148 | Bool, UUID, buffer reference and Null as they are read from any bytes, errors included |
| OperandFormat.StringsRead | core-rust/src/codec.rs:512-527 | Str, Bytes and vendor operands as they are read from any bytes, errors included |
| OperandFormat.UnassignedRead | aicl/bin/symbol_types.py:23-36 | the unassigned tags, literally: Null for Rust, an error for Python |
| OperandPieces.ParseLocal | aicl/bin/operands.py:98-181 | reading depends on no byte beyond those it takes, on all accepted bytes and in both languages |
| OperandPieces.ItemsExactly | aicl/bin/operands.py:149-155 | a counted run is read if and only if the bytes it takes can be cut into as many pieces that each read as one operand |
| OperandPieces.EntriesExactly | aicl/bin/operands.py:156-168 | the same for map entries: each piece is a key length, a UTF-8 key and one operand |
| OperandPieces.AllExactly | aicl/bin/operands.py:191-197 | the same for operands without a count, which use up all the bytes |
| OperandPieces.ListRead | aicl/bin/operands.py:149-155 | a list from any bytes after the literal tag |
| OperandPieces.MapRead | core-rust/src/codec.rs:563-581 | a map from any bytes after the literal tag |
| MapCollects.CollectExactly | core-rust/src/codec.rs:566-580 | a map that was read holds an entry if and only if it is the last with its key; keys are in order for Rust and in the order in which they first came for Python |
| OperandLaws.RoundTrip | aicl/bin/operands.py:45-181 | for every portable operand tree and every suffix, decoding the encoding returns the tree and stops at the suffix |
| OperandLaws.ItemsRoundTrip | aicl/bin/operands.py:75-78 | the same for counted back-to-back operands |
| OperandReading.PythonRoundTripExact | aicl/bin/operands.py:45-181 | the Python round trip holds for an encodable tree if and only if every nested count and length is below 2^28 |
| OperandReading.SizeForcesSmall | aicl/bin/varint.py:20-30 | an encoding shorter than 2^28 bytes forces every nested count and length below the varint limit |
| OperandReading.ParseReadable | aicl/bin/operands.py:98-181 | whatever either decoder accepts is a well-formed tree: numbers in range, valid UTF-8, small lengths, real maps |
| OperandReading.PrefixFree | aicl/bin/operands.py:45-95 | no encoding is a proper prefix of another |
| OperandReading.SequenceRoundTrip | aicl/bin/operands.py:184-197 | a sequence without a count is read back whole |
| OperandReading.SequencesDiffer | aicl/bin/operands.py:184-188 | different sequences have different encodings |
| OperandInterop.ParseShrinks | aicl/bin/operands.py:98-181 | re-encoding what was accepted never takes more bytes than were read |
| OperandInterop.Normalises | aicl/bin/operands.py:98-181 | on all accepted bytes the cursor advances, nodes number at most the bytes read, and the re-encoding is no longer and decodes to the same value |
| OperandInterop.RustReadsWhatPythonReads | core-rust/src/codec.rs:443-605 | on all bytes that Python accepts, Rust accepts, takes as many bytes and gives the same tree with maps in key order |
| OperandInterop.RustReadsUnassignedTags | core-rust/src/operand.rs:42-54 | an unassigned tag is Null for Rust and an error for Python |
| OperandInterop.EncodersAgree | core-rust/src/codec.rs:378-430 | both languages write the same bytes for every vendor-free tree with counts and lengths below 2^32 |
| OperandWalk.ReadersAgreeExactly | core-rust/src/codec.rs:443-605 | on all bytes, Python accepts if and only if Rust does without meeting an unassigned tag; Rust then takes as many bytes and gives the same value with maps in key order |
| OperandWalk.ItemsAgreeExactly | core-rust/src/codec.rs:185-193 | the same for the counted operands of a payload |
| OperandWalk.EncodedWalk | core-rust/src/codec.rs:552-581 | reading what either language writes for a tree, `idx * 1000 + i` overflows if and only if it does for a node of the tree |
| IndexNumbers.PacketFitsExactly | core-rust/src/codec.rs:552-581 | no index overflows if and only if, for every path to a node, the number with the path as its digits in base 1000 is below 2^32 |
| PyFields.NamesSurviveExactly | aicl/bin/codec_view.py:102-105 | a comma-joined list of names survives if and only if no name is empty or holds a comma |
| NameLists.Joined | aicl/bin/codec_packet.py:82-83 | in a joined list name k stands at the summed offset of those before it, the byte 0x2C stands in every gap, and there is nothing else |
| NameLists.SplitFinds | aicl/bin/codec_view.py:102-105 | for all bytes, the names shown are the maximal non-empty runs without the byte 0x2C, all of them and in order |
| NameLists.NamesShown | aicl/bin/codec_view.py:105 | the view raises if and only if one of them is not UTF-8 |
| FieldLayouts.IdentityLayout | aicl/bin/types.py:41-55 | literal ranges and offsets of a packed identity |
| FieldLayouts.IdentityRead | aicl/bin/types.py:58-69 | for all bytes, an identity is read if and only if the bytes start with its packed form; the exact error otherwise |
| FieldLayouts.QoSLayout | aicl/bin/codec_packet.py:94-96 | literal ranges and offsets |
| FieldLayouts.QoSRead | aicl/bin/codec_view.py:136-142 | read if and only if the bytes start with the packed form, nothing below 12 bytes |
| FieldLayouts.TraceRanges | aicl/bin/codec_packet.py:99-102 | literal ranges |
| FieldLayouts.TraceLayout | aicl/bin/codec_packet.py:99-102 | literal offsets, the two times in two's complement |
| FieldLayouts.TraceRead | aicl/bin/codec_view.py:149-160 | read if and only if the bytes start with the packed form |
| FieldLayouts.ChunkLayout | aicl/bin/codec_packet.py:103-105 | literal ranges and offsets |
| FieldLayouts.ChunkRead | aicl/bin/codec_view.py:163-172 | read if and only if the bytes start with the packed form, nothing below 14 bytes |
| FieldLayouts.BackpressureLayout | aicl/bin/codec_packet.py:109-111 | literal ranges and offsets |
| FieldLayouts.BackpressureRead | aicl/bin/codec_view.py:187-194 | read if and only if the bytes start with the packed form, nothing below 12 bytes |
| FieldLayouts.ErrorRanges | aicl/bin/codec_packet.py:112-115 | literal ranges |
| FieldLayouts.ErrorLayout | aicl/bin/codec_packet.py:112-115 | literal offsets, details as an empty string if there are none |
| FieldLayouts.ErrorRead | aicl/bin/codec_view.py:197-211 | for all bytes: when nothing is shown, and what code, severity, message and details are, cut-off details included |
| FieldLayouts.ModelRanges | aicl/bin/codec_packet.py:126-129 | literal ranges |
| FieldLayouts.ModelLayout | aicl/bin/codec_packet.py:126-129 | literal offsets |
| FieldLayouts.ModelRead | aicl/bin/codec_view.py:238-249 | for all bytes: nothing below three, the strings as long as the first bytes say, no timeout if it is cut off |
| FieldLayouts.ToolRanges | aicl/bin/codec_packet.py:130-133 | literal ranges |
| FieldLayouts.ToolLayout | aicl/bin/codec_packet.py:130-133 | literal offsets |
| FieldLayouts.ToolRead | aicl/bin/codec_view.py:252-262 | the same for tools |
| FieldLayouts.MetaLayout | aicl/bin/codec_packet.py:134-139 | literal ranges and offsets of one entry |
| FieldLayouts.MetadataRead | aicl/bin/codec_view.py:265-283 | entries are put into the dict in order, and reading goes on with what follows them |
| FieldLayouts.MetadataStops | aicl/bin/codec_view.py:270-282 | where reading ends and where it raises, for all bytes |
| FieldLayouts.MetaPutExactly | aicl/bin/codec_view.py:281 | a repeated key keeps its place with the new value, a new key goes last |
| FieldLayouts.BlobRefLayout | aicl/bin/codec_packet.py:106-108 | literal ranges and offsets in native layout |
| FieldLayouts.AckLayout | aicl/bin/codec_packet.py:116-117 | a zero byte and the message |
| FieldTags.FieldUnderTag | aicl/bin/extension_tags.py:21-43 | under the tags 0x80 to 0x96 stand exactly the values of the fields 0 to 22, and nothing under any other tag |
| FieldTags.TextFields | aicl/bin/codec_packet.py:78-125 | which text, id and list of names is field i, and when it is absent |
| FieldTags.NumberFields | aicl/bin/codec_packet.py:86-91 | response symbols, confidence and priority, absent at 1.0 and 128 |
| FieldTags.RecordFields | aicl/bin/codec_packet.py:80-111 | which record is which field |
| FieldTags.ReportFields | aicl/bin/codec_packet.py:112-139 | the same for errors, acknowledgements, invocations and metadata |
| FieldTags.TracesPacked | aicl/bin/codec_packet.py:99-102 | one value per trace entry, in order |
| FieldTags.BlobRefsPacked | aicl/bin/codec_packet.py:106-108 | one value per blob reference, in order |
| FieldTags.PayloadWritten | aicl/bin/codec_packet.py:64-72 | a payload is the operation byte, the count, the symbols, and vendor operands in the order of their tags |
| FieldTags.TextsShown | aicl/bin/codec_view.py:108-110 | texts of any view: shown, empty if lacking, an error if not UTF-8 |
| FieldTags.NumbersShown | aicl/bin/codec_view.py:121-128 | numbers of any view: shown, an error if too short, 1.0 and 128 if lacking |
| PyBuild.AppendField | aicl/bin/codec_packet.py:78-139 | one condition of `_append_extensions`: the values of the field under its tag, or the error of its first packing step that raises |
| PyBuild.AppendExtensions | aicl/bin/codec_packet.py:74-139 | all fields in order, and an error if and only if some step of some field raises |
| PyBuild.WritePayload | aicl/bin/codec_packet.py:67-72 | opcode, count and all operands, and an error if and only if an operand cannot be encoded |
| PyBuild.BuildPayload | aicl/bin/codec_packet.py:54-72 | the payload holds the symbols followed by each rich field present under its tag in order; the call raises if and only if some number, text or length of the packet does not fit |
| PyView.InitView | aicl/bin/codec_view.py:17-33 | the loop sorts the parsed operands into symbols and per-tag extension lists, in order |
| PyRoundTrip.PlainFrame | aicl/bin/codec_api.py:38-71 | a frame without trailer is viewed through exactly its payload |
| PyRoundTrip.SealedFrame | aicl/bin/codec_api.py:65-71 | a sealed frame passes its check and is viewed through payload and trailer |
| PyRoundTrip.OversizedFrame | aicl/bin/validation.py:50-52 | a payload above 0xFFFFFF is always rejected |
| PyRoundTrip.PayloadOperands | aicl/bin/codec_view.py:22-33 | the operands of a payload are read back whatever bytes follow them |
| PyRoundTrip.CoreExactly | aicl/bin/codec_view.py:30-33 | the symbols of a view are those of the packet if and only if none is a vendor operand |
| PyRoundTrip.DecodeEncode | aicl/bin/codec_api.py:14-71 | for every packet that encodes, with or without checksum, decoding succeeds if and only if the payload is at most 0xFFFFFF bytes, and shows its header, operation, core operands and extensions |
| PyAcceptance.DecodeExactly | aicl/bin/codec_api.py:38-71 | `decode` accepts a byte string if and only if: 56 bytes, "AICL", version bytes 1 and 0, header CRC, declared length at most 0xFFFFFF and present, nothing after the payload or at least four bytes of which the first four are its CRC, and operands that parse |
| PyAcceptance.DecodeErrors | aicl/bin/validation.py:25-52 | the exact error for each condition that fails, the first one deciding |
| PyAcceptance.DecodeShows | aicl/bin/codec_view.py:17-55 | the header fields of a view at their literal offsets, its operation, symbols and extensions |
| PyAcceptance.EncodeExactly | aicl/bin/codec_api.py:14-35 | `encode` succeeds if and only if every part can be packed, the version is 1.0, ids have 16 bytes, and flags, deadline and payload length are in literal ranges |
| PyAcceptance.EncodedFrame | aicl/bin/codec_api.py:19-35 | the frame it returns, field by field at literal offsets, the trailer flag and the CRC included |
| PyAcceptance.EncodeErrors | aicl/bin/header.py:70-90 | which error each reason for failing gives |
| PyRichFields.EndToEnd | aicl/bin/codec_view.py:93-283 | the whole round trip: header fields, operation, symbols and every rich field but blob references and acknowledgement come back |
| PyLostFields.BlobNeverSurvives | aicl/bin/codec_view.py:174-184 | what a caller gets for every blob reference: text in its size, numbers in its offset and identifier, or an error; never the reference that was packed |
| PyLostFields.LayoutSurvivesExactly | aicl/bin/codec_packet.py:106-108 | the reads give size, offset and identifier back if and only if the size is below 2^16 with equal bytes, the offset is 0 and the identifier is all zeros |
| PyLostFields.AckSurvivesExactly | aicl/bin/codec_view.py:213-217 | the message comes back as the type, so an acknowledgement survives if and only if both of its strings are empty |
| PyLostFields.LostInTransit | aicl/bin/codec_api.py:14-71 | after `encode` and `decode`, blob references come back if and only if there are none, and the acknowledgement if and only if there is none or an empty one |
| PyRichFields.PlainPacketsQualify | aicl/bin/codec_packet.py:14-72 | every packet of core operands with default rich fields meets the premises of the round trip, and `encode` accepts it if and only if its payload length fits the header |
| PyBurst.SealedWindow | aicl/bin/codec_api.py:53-71 | changing bytes within a window of four in the covered prefix of an accepted sealed frame makes `decode` raise |
| PyBurst.TrailerWindow | aicl/bin/validation.py:60-66 | changing only trailer bytes makes `decode` raise |
| PyBurst.PlainWindow | aicl/bin/validation.py:43-48 | without a trailer, changes in a window of four within header bytes 0 to 51 or within 52 to 55 make `decode` raise |
| PyBurst.HeaderWindow | aicl/bin/validation.py:43-48 | a window of four in the first 52 bytes fails header validation |
| PyBurst.HeaderCrcWindow | aicl/bin/validation.py:43-48 | a change of the stored header CRC fails header validation |
| PyBurst.EncodedIsAccepted | aicl/bin/codec_api.py:14-35 | what `encode` writes within the limit is such an accepted frame |
| Streaming.Find | aicl/bin/streaming.py:36-38 | the first magic at or after an offset |
| Streaming.Scan | aicl/bin/streaming.py:25-62 | the scanning loop collects the packets and keeps the bytes that the recursive description of one call says |
| Streaming.StreamingDecoder.FeedBytes | aicl/bin/streaming.py:23-64 | one call on the object: packets returned and buffer kept, and the buffer after an exception |
| StreamingLaws.Resume | aicl/bin/streaming.py:35-62 | one call with any limit takes packets off the front of the stream and leaves the rest of it, whatever bytes come later |
| StreamingLaws.FeedBelowLimit | aicl/bin/streaming.py:35 | a call that stays below the limit is a full pass; a limit only delays |
| StreamingLaws.KeptBuffer | aicl/bin/streaming.py:50-62 | the bytes kept are the last ones that came, and have no header among them or begin with that of a frame that is not all there |
| StreamingLaws.ChunkingIndependence | aicl/bin/streaming.py:23-64 | if one call on both chunks succeeds below the limit, two calls give the same packets and the same buffer |
| StreamingLaws.ChunkingMerges | aicl/bin/streaming.py:23-64 | the same, starting from the two calls |
| StreamingLaws.RaisesForever | aicl/bin/streaming.py:53-55 | after a framed candidate failed to decode, every later call fails the same way |
| StreamingLaws.RunConserves | aicl/bin/streaming.py:23-64 | over every chunking and limit, packets emitted plus packets still in the buffer are those of one pass over the stream |
| StreamingLaws.EmptyFeedsDrain | aicl/bin/streaming.py:35-62 | empty calls drain the buffer, in at most one call per packet and one more |
| StreamingLaws.RunComplete | aicl/bin/streaming.py:35-62 | any chunking and any limit of at least one, then enough empty calls, give exactly the packets and buffer of one pass |
| StreamingLaws.FramedExactly | aicl/bin/streaming.py:45-49 | an encoded packet is framed at its true end if and only if the trailer flag is set only through `checksum` |
| StreamingLaws.StreamDecodes | aicl/bin/streaming.py:35-57 | a pass over encoded packets separated by garbage without valid headers emits each packet in order |
| StreamingLaws.StreamingComplete | aicl/bin/streaming.py:35-62 | for such streams, any chunking, any limit of at least one and enough empty calls emit each packet exactly once and in order |
| SharedRing.StepInv | aicl/transport/shared_memory_ring.py:115-148 | every single-byte step of either process keeps the slot invariant |
| SharedRing.FreeExactly | aicl/transport/shared_memory_ring.py:122-142 | the used byte of the next slot tells the producer exactly "full" and the consumer exactly "empty" |
| SharedRing.CopyStep | aicl/transport/shared_memory_ring.py:142-145 | the consumer's copy is complete exactly when it is the published message; until then it reads inside the slot |
| SharedRing.UsedExactly | aicl/transport/shared_memory_ring.py:15-21 | a slot is marked used if and only if it holds an undelivered message |
| SharedRing.EveryRunSafe | aicl/transport/shared_memory_ring.py:78-148 | in every interleaving, popped is a prefix of pushed byte for byte, at most `capacity` messages are in flight, and used bytes are exact |
| SharedRing.FullAndEmptyExactly | aicl/transport/shared_memory_ring.py:122-142 | in every interleaving, RingFull means exactly `capacity` in flight at the test, and RingEmpty exactly none |
| SharedMemoryRing.MarkFree | aicl/transport/shared_memory_ring.py:88-89 | the loop of `create` marks every slot free and leaves the header alone |
| SharedMemoryRing.SharedMemoryRing.constructor | aicl/transport/shared_memory_ring.py:78-90 | header written and every slot free, on memory of any content: a start state of the protocol |
| SharedMemoryRing.SharedMemoryRing.PushNowait | aicl/transport/shared_memory_ring.py:115-127 | the order of the error cases, the whole memory after a push, nothing changed after an error |
| SharedMemoryRing.SharedMemoryRing.PopNowait | aicl/transport/shared_memory_ring.py:138-148 | the message read and the whole memory after a pop, nothing changed after an error |
| SharedMemoryRing.PushLayout | aicl/transport/shared_memory_ring.py:109-127 | a pushed message in memory at literal offsets: slot behind 20 bytes of header, used byte 1, four bytes of length, data; nothing else changed |
| SharedMemoryRing.PushResultExactly | aicl/transport/shared_memory_ring.py:118-124 | the exact condition of each error of a push |
| SharedMemoryRing.SoloPush | aicl/transport/shared_memory_ring.py:115-127 | the single-byte steps of a push add up to `push_nowait` |
| SharedMemoryRing.SoloPop | aicl/transport/shared_memory_ring.py:138-148 | the single-byte steps of a pop add up to `pop_nowait` |
| SharedMemoryRing.CallsComplete | aicl/transport/shared_memory_ring.py:115-148 | from every reachable state a side that is between calls finishes on its own: a push unless full, a pop with the oldest message |
| RustOperands.EncodeOperand | core-rust/src/codec.rs:378-430 | the encoder appends the reference encoding, with the tag of a vendor operand repeated |
| RustOperands.DecodeOperand | core-rust/src/codec.rs:443-605 | the slice-passing decoder computes the reference parse |
| RustOperands.DecodeItems | core-rust/src/codec.rs:552-562 | the item loop computes the reference parse of a counted run |
| RustOperands.DecodeEntries | core-rust/src/codec.rs:563-581 | the map loop inserts in key order, the last value of a repeated key winning |
| RustCodec.WriteHeader | core-rust/src/codec.rs:60-74 | writing the fields one by one into zeros gives the header, with zero padding and the CRC last |
| RustCodec.EncodeInto | core-rust/src/codec.rs:43-76 | earlier bytes stay, the frame is appended; above the limit an error, with a blank header and the payload left behind |
| RustCodec.ReadAllOperands | core-rust/src/codec.rs:181-193 | count and operand loop of validation and of `to_packet` |
| RustCodec.FindLast | core-rust/src/codec.rs:299-305 | the loop of `operand` returns the last of idx + 1 parsed operands |
| RustCodec.ReadOperand | core-rust/src/codec.rs:287-306 | `operand(idx)` with its error cases |
| RustCodecLaws.OpcodeSurvivesExactly | core-rust/src/opcode.rs:88-136 | an opcode survives its byte if and only if it is named or a vendor opcode of at least 0xF0 |
| RustAcceptance.OpcodesExactly | core-rust/src/opcode.rs:88-136 | a byte is an opcode if and only if it is in the literal list of 36 or at least 0xF0, and the opcode gives the byte back |
| RustCodec.ValidateHeader | core-rust/src/codec.rs:119-200 | the checks in order, panics included, compute the reference validation |
| RustAcceptance.DecodeExactly | core-rust/src/codec.rs:119-200 | `decode` accepts a buffer if and only if: 56 bytes, "AICL", major version byte 1, header CRC, length at most `max_payload` and present, a trailer if the lowest bit of byte 6 is set, right if checked, a payload that is not empty, a listed opcode, indices that fit, and operands that fill it |
| RustAcceptance.FrameErrors | core-rust/src/codec.rs:120-167 | the exact error for each condition on the frame that fails |
| RustAcceptance.PayloadErrors | core-rust/src/codec.rs:169-199 | the exact error, or panic, for each condition on the payload that fails |
| RustAcceptance.BorrowExactly | core-rust/src/local_path.rs:616-652 | `decode_borrowed` accepts if and only if the header stands and the payload is present, and the exact error otherwise |
| RustAcceptance.SliceExactly | core-rust/src/codec.rs:623-660 | `decode_to_packet_from_slice` on any buffer: the packet, the error, or the panic |
| RustAcceptance.EncodedFrame | core-rust/src/codec.rs:43-76 | the frame that `encode_into` appends, field by field at literal offsets |
| RustCodecLaws.PayloadReads | core-rust/src/codec.rs:181-197 | every vendor-free payload of small counts and lengths is read back whole, with the indices of its trees |
| RustCodecLaws.RustRoundTrip | core-rust/src/codec.rs:43-200 | for every vendor-free packet of small counts and lengths: Truncated if the trailer flag is set, UnknownOpcode if the opcode byte is unassigned, a panic if an index overflows in a build that checks, otherwise the packet comes back |
| RustVendors.ItemsLeftover | core-rust/src/codec.rs:423-427 | a run of operands with a vendor operand at any depth, if it reads as itself, leaves one byte over |
| VendorTags.ParseCovered | core-rust/src/codec.rs:362-605 | what the Rust reader takes in, over-long varints, unassigned tags and repeated keys included, holds at least as many bytes below 0x80 as the shortest encoding of the result; if as many, at least as many zeros; if as many of both, as many bytes above 0x80 |
| VendorTags.ReadBackIsBase | core-rust/src/codec.rs:378-430 | a run of operands that is read back whole has no vendor tag above 0x80 at any depth, whatever keys its maps have |
| RustCodecLaws.ComesBackExactly | core-rust/src/codec.rs:43-333 | a packet comes back if and only if its trailer flag is clear, its opcode survives, no operand at any depth is a vendor operand, every count and length is below 2^28, and no index overflows in a build that checks |
| RustCodecLaws.VendorShifted | core-rust/src/codec.rs:423-427 | a vendor operand written by Rust reads back shifted by its repeated tag, one byte short |
| RustCodecLaws.VendorRejected | core-rust/src/codec.rs:592-599 | a vendor-free list followed by one vendor operand is always rejected with TrailingBytes |
| RustCodecLaws.FastPathsAgree | core-rust/src/local_path.rs:616-652 | on every buffer that `decode` accepts, the borrowed path accepts, both packets are equal, the count is right and `operand(i)` is operand i |
| RustCodecLaws.PanicsExactly | core-rust/src/codec.rs:119-200 | `decode` panics if and only if the buffer is a bare valid header with an empty payload and no trailer flag, or the build checks for overflow and an operand index that is reached does not fit 32 bits |
| RustCodecLaws.PanicHappens | core-rust/src/codec.rs:172 | such a header, for every codec |
| RustCodecLaws.DeepPanics | core-rust/src/codec.rs:557 | a packet whose sixth operand nests three lists panics in a build that checks, and is accepted otherwise |
| RustCodecLaws.RustReadsPython | core-rust/src/codec.rs:119-333 | every Python-encoded packet within the Python limit: Truncated if the trailer flag is set without a trailer, UnknownOpcode if Rust has no such opcode, a panic if an index overflows in a build that checks, otherwise the same ids, flags, deadline and core operands, then each rich field as a vendor operand in order |
| RustCodecLaws.PythonReadsRust | aicl/bin/codec_api.py:38-71 | Python reads every vendor-free Rust packet, whatever its flags, up to 0xFFFFFF bytes, and rejects the rest |
| LocalRing.LocalRingBuffer.constructor | core-rust/src/local_path.rs:275-304 | an empty ring with slots of the right size |
| LocalRing.LocalRingBuffer.Reserve | core-rust/src/local_path.rs:150-159 | the producer's counter unless `capacity` frames are pending |
| LocalRing.LocalRingBuffer.Push | core-rust/src/local_path.rs:346-377 | Backpressure before PayloadTooLarge, the slot written, the wrapping tail, and nothing else changed |
| LocalRing.LocalRingBuffer.TryPop | core-rust/src/local_path.rs:398-416 | the borrow points at the slot of the head, with a copied header, and only the head moves |
| LocalRing.LocalRingBuffer.Data | core-rust/src/local_path.rs:467-469 | a borrow reads the ring as it is now |
| LocalRing.LockedQueue.Push | core-rust/src/transport.rs:101-107 | a bounded queue refuses when full and appends otherwise |
| LocalRing.LockedQueue.Pop | core-rust/src/transport.rs:110-112 | the oldest entry, if any |
| LocalRingLaws.Distance | core-rust/src/local_path.rs:133-145 | the wrapping difference of the counters is the true distance |
| LocalRingLaws.SlotsDistinctExactly | core-rust/src/local_path.rs:187-189 | frames in flight together never share a slot, at any time, if and only if the capacity divides 2^64 |
| LocalRingLaws.RingRefinesQueue | core-rust/src/local_path.rs:346-416 | every run of pushes and pops looks the same on the ring and on the bounded queue, for ever when the capacity divides 2^64, and for any capacity while the accepted pushes stay below the wrap |
| LocalRingLaws.QueueExactly | core-rust/src/local_path.rs:133-189 | a fresh ring behaves like the queue in every run if and only if its capacity divides 2^64 |
| LocalRingLaws.FreeSlotsExact | core-rust/src/local_path.rs:133-137 | for every capacity, after every run and across every wrap, `free_slots` does not underflow and is the room in the queue |
| LocalRingLaws.WrapCorrupts | core-rust/src/local_path.rs:187-189 | for a capacity that does not divide 2^64, a run across the wrap pops a wrong frame |
| LocalRingLaws.TurnsReach | core-rust/src/local_path.rs:346-416 | alternating pushes and pops take a fresh ring to every counter value, so the state before that run is reached |
| LocalRingLaws.WindowHolds | core-rust/src/local_path.rs:398-416 | a borrowed frame reads as pushed through capacity - (t - h) further pushes, and its copied header always |
| LocalRingLaws.WindowEnds | core-rust/src/local_path.rs:464-478 | the next push is accepted and overlays exactly the borrowed bytes |
| LocalRingLaws.SlotHeaderOfFrame | core-rust/src/local_path.rs:361-363 | the slot header of a frame carries its length, its opcode and the high byte of its flags |
| LocalRingSteps.StepInv | core-rust/src/local_path.rs:346-416 | every load, store and byte copy of either thread keeps the slot invariant |
| LocalRingSteps.EveryRunDelivers | core-rust/src/local_path.rs:133-182 | in every interleaving of two threads, borrows are given out for the committed frames in order with whole headers, at most `capacity` are in flight, and a borrow reads as its frame until its slot is filled again |
| LocalRingSteps.FullAndEmptyExactly | core-rust/src/local_path.rs:150-177 | in every interleaving, a push that loads the head finds the ring full exactly when `capacity` frames are in flight, and a pop that loads the tail finds it empty exactly when none is |
| Refcount.SharedAlloc.constructor | core-rust/src/abi.rs:226-242 | a count of one |
| Refcount.SharedAlloc.Clone | core-rust/src/abi.rs:317-345 | the count goes up by one |
| Refcount.SharedAlloc.Drop | core-rust/src/abi.rs:348-367 | the count goes down, and the buffer is freed when it was one |
| Refcount.SharedAlloc.IntoVec | core-rust/src/abi.rs:275-296 | a copy of the data, the count unchanged |
| Refcount.LiveHandlesCount | core-rust/src/abi.rs:317-367 | in every state that keeps the count invariant, a live handle finds a count above zero, so no action on it can underflow |
| Refcount.FreedOnceNeverLive | core-rust/src/abi.rs:317-367 | in every run an allocation is freed at most once and never while a handle is live |
| Refcount.FreedExactlyAtLastDrop | core-rust/src/abi.rs:348-367 | it is freed if and only if no handle is live and none was converted by `into_vec` |
| Refcount.FreedAtLastDrop | core-rust/src/abi.rs:348-367 | in runs without `into_vec` on it, it is freed exactly at the last drop |
| Refcount.ConvertedIsNeverFreed | core-rust/src/abi.rs:275-296 | after `into_vec` on a shared handle it is never freed |
| Capability.CapabilityTable.constructor | core-rust/src/capability.rs:67-76 | at least the reserved slot, at most 65535 slots, all empty |
| Capability.CapabilityTable.Register | core-rust/src/capability.rs:102-121 | the first free slot, or the watermark, and the whole new table |
| Capability.CapabilityTable.Unregister | core-rust/src/capability.rs:124-133 | the entry taken out, or an error and nothing changed |
| Capability.CapabilityTable.FindByName | core-rust/src/capability.rs:92-99 | the lowest index that holds the name, or none does |
| Capability.SoundRegistersWell | core-rust/src/capability.rs:102-121 | in a sound table `register` takes a free non-zero index, changes no other, and fails only when no index is left |
| Capability.RunSound | core-rust/src/capability.rs:102-133 | every run keeps a table sound, with slot 0 empty |
| Capability.GrowthOverwrites | core-rust/src/capability.rs:114-119 | a full table of capacity 2 to 65534 overwrites index 1 |
| Capability.AlwaysWellExactly | core-rust/src/capability.rs:67-121 | every run registers well if and only if the capacity is at most 1 or at least 65535 |
| Capability.RegisterUnregister | core-rust/src/capability.rs:102-133 | unregistering undoes registering at every index |
| Capability.UnregisterExactly | core-rust/src/capability.rs:124-133 | it fails if and only if the index is 0 or holds nothing; otherwise the entry comes out and no other index changes |
| Gate.CheckOperand | core-rust/src/gate.rs:125-152 | the recursive loops compute the reference check |
| Gate.Check | core-rust/src/gate.rs:69-84 | Deny exactly when some top-level Ref is not registered |
| Gate.CheckPacket | core-rust/src/gate.rs:109-122 | the count limit first, then every operand |
| Gate.CheckAndValidate | core-rust/src/gate.rs:89-97 | success if and only if all top-level Refs are registered, the count is within its limit, and at every node of every tree depth and lengths are |
| Gate.PassesExactly | core-rust/src/gate.rs:109-152 | the safety checks pass if and only if every node that any path reaches is within limits |
| Gate.LimitErrors | core-rust/src/gate.rs:109-122 | too many operands give one error, any node beyond its limits the other |
| Gate.Monotone | core-rust/src/safety.rs:34-51 | wider limits let through whatever narrower ones do |
| Router.FindDirect | core-rust/src/router.rs:95-101 | the nested loops compute the direct pick |
| Router.DirectPickExactly | core-rust/src/router.rs:93-103 | the first handler of the first Ref that has one, and none if and only if no Ref has a handler |
| Router.DispatchExactly | core-rust/src/router.rs:108-117 | NoHandler if and only if there is no handler, or a direct pick finds no reference that has one; otherwise the handler that was picked decides |
| Router.Router.Add | core-rust/src/router.rs:72-77 | handler and reference are added side by side |
| Router.Router.Pick | core-rust/src/router.rs:86-105 | the handler picked and the cursor left behind |
| Router.Router.Dispatch | core-rust/src/router.rs:108-117 | taking a handler out and putting it back moves no other handler and no reference |
| Router.HandlersStayInPlace | core-rust/src/router.rs:108-117 | over every run each place holds its own handler, having served exactly the packets picked for it, in order |
| Router.Fair | core-rust/src/router.rs:90 | any n consecutive cursor values pick each of k handlers floor(n/k) or ceil(n/k) times |
| Router.RoundRobinFair | core-rust/src/router.rs:86-117 | in every run without cursor wrap each handler gets its share, whatever the handlers do |
| Router.DrainIsFifo | core-rust/src/router.rs:151-159 | packets are handled first in, first out; after a failure the queue is exactly what followed the failing packet |
| Router.Connection.Enqueue | core-rust/src/router.rs:142-148 | appended unless 1024 packets wait |
| Router.Connection.DrainAll | core-rust/src/router.rs:151-159 | the loop's responses, queue, routes and outcome are those of the recursive description |

## Left out

- The SDK, foreign-function loading, HTTP transport, session and address handling: input and output.
- The C++ adapter and its stubs, the JSON-carrying codecs, `SemanticAdapter`, grammars, benchmarks and display code.
- Timeouts and the retrying `push` and `pop`, `attach`, creation of the memory segment, and generation of ids: the
  model starts from a freshly created ring and takes ids as inputs.
- Hardware memory ordering, alignment and cache padding: steps are sequentially consistent.
- Texts of errors: errors are tags. Of the index `idx * 1000 + i` in the messages of the Rust decoder, its overflow is modelled.
- Exhaustion of memory or of the call stack, and the allocation that `with_capacity` makes from a declared count.
- Rounding of floats, and `float` values as opposed to their bit patterns.
- `validate_flags`, which never raises, and the flag accessors of the views.
- `BufferPool`, `DispatchTable`, `LocalNonce`, `AiclStream` and the transport's `close`: easy members.
- `AiclHandle` counts like a shared buffer without `into_vec` and has no machine of its own.
- Overflow of a reference count, which needs 2^64 handles, and of the nesting depth, which needs 2^32 levels.
- Rust vendor operands with a tag below 0x80, which read as operands of other kinds.
- RustCodecLaws.ComesBackExactly: stated for payloads below 2^32 bytes, the length that the header can carry, and not for packets whose vendor operands all have the tag 0x80 and that also hold a map key that starts with an earlier key of its map and is at least 128 times as long: the decoder accepts keys in any order and over-long varints, and whether such a key together with an over-long zero can take in the left-over bytes is not decided.
- LocalRing.LocalRingBuffer.Push: the slot header is a record, not eight bytes in the byte order of the machine.
- LocalRingSteps.EveryRunDelivers: a capacity that does not divide 2^64 is covered up to 2^64 committed frames; `LocalRingLaws.QueueExactly` shows that it fails after that.
- Router.RoundRobinFair: does not model the 64-bit wrap of the cursor, after which a round can be cut short.
- PyLostFields.BlobNeverSurvives: native packing is modelled for a little-endian machine with four-byte alignment.
