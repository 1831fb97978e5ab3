# A verified model of a small DNS wire-format codec

This project models the core of a Rust DNS stub codec in Dafny. The model
covers six parts:

- **Read cursor.** `Decoder` is an immutable message buffer plus a shrinking
  unread suffix.
- **Domain names.** `Domain::new` turns dotted text into length-prefixed
  labels. `Domain::from_bytes` reads labels and compression pointers back
  off a cursor.
- **Code tables.** The TYPE, CLASS, QTYPE and QCLASS codes of sections
  3.2.2 to 3.2.5 of RFC 1035, plus the AAAA type (28) of RFC 3596.
- **Write buffer.** `Encoder` is a writer capped at 512 bytes.
- **Message assembly.** `Message::decode` reads a header, one question and
  three counted sections of resource records.
- **Query builder.** `build_query` produces a 12-byte header, then the
  question.

## How the code is modelled

**Failures.** Every call ends in one of three ways: `Ok(value)`, the `Err`
of a Rust `Result`, or `Panic` (`Wire.Outcome`). Each `unwrap`, failed
`assert!` and push into a full `ArrayVec` is modelled as `Panic`. An
out-of-range `split_at` inside the cursor's reads is different: those reads
require enough bytes, and their callers check first and return `Panic`
(see "Left out").

**Integers and text.** Integers are the exact widths the code uses.
Domain text is modelled as its UTF-8 bytes. The separator `.` is byte
0x2E, which never appears inside a multi-byte UTF-8 character.

**Functions, classes and loops.** The model follows each file's form:

- Pure code becomes functions: the iterator pipeline of `Domain::new`
  and the `match` expressions of the code tables.
- Objects updated in place become classes with `modifies` clauses:
  `Cursor.Decoder` and `Writing.Encoder`.
- Loops become methods proved against a specification function:
  - `Domain::from_bytes` against `Names.Walk`.
  - The record loops of `Message::decode` against `Messages.RecordsAt` and `Messages.SectionsAt`.

`build_query` has no loop. `Queries.BuildQuery` models it as the same
two straight-line appends to a 281-byte array, proved equal to
`Queries.QueryWire`.

**The code, not the RFC.** Where RFC 1035 and the code disagree, the model
follows the code:

- **Names are not RFC names.** `Domain::from_bytes` starts from
  `Domain::new("")`, which is `[0, 0]`. It keeps those two bytes in front
  of the labels, and it stops on the terminating 0 without consuming it
  (`Names.LabelsDecode`).
- **Pointers never work.** A compression pointer uses only the low six
  bits of its first octet as an absolute offset. It reads one label from a
  separate cursor there, and it never advances the outer cursor. So the
  loop sees the same pointer on every pass, pushing the same label again
  until the 255-byte name overflows. `Names.PointerPanics` proves that
  once decoding reaches a pointer octet it panics. `Names.WalkOkIsBytes`
  proves the converse view: whatever the buffer holds, an `Ok` name is
  the starting name plus exactly the bytes the cursor consumed.
- **The longest names cannot be read back.** A 253-byte text without
  empty parts encodes to a 255-byte name. Decoding that name adds the two leading bytes, which
  overflows the 255-byte capacity and panics (`Names.EncodedNameDecodes`,
  `Names.LabelsOverflow`).
- **Empty labels end the name early.** An empty part of the text (`a..b`)
  encodes as a 0 length byte. The decoder takes that byte for the
  terminator (`Names.EmptyPartEndsName`).

Domain errors are an `Err` only for two cases: a buffer that ends before a
0 octet, and an octet whose top two bits are 01 or 10 (`Names.Rejects`).
Everything else panics.

## Model

| member | source | states |
|---|---|---|
| Wire.FromBE | src/decoder.rs:40-47 | `from_be_bytes`: the unsigned big-endian value of a byte string, below 256 to the power of its length |
| Wire.ToBE | src/encoder.rs:14-16 | `to_be_bytes`: exactly `width` bytes whose big-endian value is `x` |
| Wire.ToBEFromBE | src/decoder.rs:40-47 | Encoding the big-endian value of a byte string at its own width gives the string back, so reading and writing integers are inverse |
| Wire.FromBE2 | src/decoder.rs:40-43 | Two big-endian bytes have the value `256*b0 + b1` |
| Wire.FromBE4 | src/decoder.rs:44-47 | Four big-endian bytes have the value `2^24*b0 + 2^16*b1 + 2^8*b2 + b3` |
| Wire.ToBE2 | src/encoder.rs:14-16 | A u16 is written as the high byte, then the low byte |
| Cursor.Decoder.constructor | src/decoder.rs:11-16 | A new cursor has `remaining == buffer` and `current() == 0` |
| Cursor.Decoder.Current | src/decoder.rs:17-19 | `current()` is the offset at which the unread suffix starts: `remaining == buffer[current()..]` |
| Cursor.Decoder.Peek | src/decoder.rs:20-24 | `None` exactly at the end of the buffer, otherwise the byte at `current()`; reads only |
| Cursor.Decoder.Pop | src/decoder.rs:25-34 | On a non-empty cursor: returns the first unread byte and advances by one. On an empty cursor: `None`, and nothing changes. The suffix invariant is kept |
| Cursor.Decoder.ReadSlice | src/decoder.rs:35-39 | Requires `n <= |remaining|`, since `split_at` panics otherwise. Returns `buffer[current()..current()+n]` and advances by exactly `n` |
| Cursor.Decoder.ReadU16 | src/decoder.rs:40-43 | Returns `256*b0 + b1` of the next two bytes and advances 2 |
| Cursor.Decoder.ReadU32 | src/decoder.rs:44-47 | Returns the big-endian value of the next four bytes and advances 4 |
| Cursor.Decoder.CloneAtIndex | src/domain.rs:33 | A fresh cursor over the same buffer, at absolute offset `i` |
| Codes.ResponseTypeCode | src/constants.rs:4-39 | The declared discriminant of each TYPE (`t as u16`): 1 to 16, or 28 for AAAA |
| Codes.ResponseClassCode | src/constants.rs:64-74 | The discriminant of each CLASS: 1 to 4 |
| Codes.QueryTypeCode | src/constants.rs:87-129 | The discriminant of each QTYPE: 1 to 16, or 252 to 255 for the query-only codes |
| Codes.QueryClassCode | src/constants.rs:160-173 | The discriminant of each QCLASS: 1 to 4, or 255 for the wildcard |
| Codes.ResponseTypeFrom | src/constants.rs:40-63 | `Ok` exactly for 1..16 and 28, with the variant whose discriminant is `v`; a panic otherwise |
| Codes.ResponseClassFrom | src/constants.rs:75-86 | `Ok` exactly for 1..4, with the matching class; a panic otherwise |
| Codes.QueryTypeTryFrom | src/constants.rs:130-158 | `Ok` exactly for 1..16 and 252..255; `Err` otherwise, never a panic |
| Codes.QueryClassFrom | src/constants.rs:174-185 | `Ok` exactly for 1..4 and 255; a panic otherwise |
| Codes.ResponseTypeRoundTrip | src/constants.rs:4-39 | Every TYPE converts to its code and back to itself |
| Codes.ResponseClassRoundTrip | src/constants.rs:65-74 | Every CLASS converts to its code and back to itself |
| Codes.QueryTypeRoundTrip | src/constants.rs:88-129 | Every QTYPE converts to its code and back to itself |
| Codes.QueryClassRoundTrip | src/constants.rs:162-173 | Every QCLASS converts to its code and back to itself |
| Names.Split | src/domain.rs:12-13 | `split('.')` yields at least one part, and no part contains a dot |
| Names.JoinSplit | src/domain.rs:12-13 | Splitting loses nothing: joining the parts with dots gives the text back |
| Names.SplitJoin | src/domain.rs:12-13 | Splitting dot-free parts joined by dots gives the same parts |
| Names.LabelNew | src/domain.rs:59-64 | `Label::new`: `Ok` exactly when the part is under 63 bytes. The result is the length byte, then the part. A panic otherwise, never an `Err` |
| Names.FlatLabels | src/domain.rs:14-17 | The `flat_map` of `Label::new`: `Ok` exactly when every part is at most 62 bytes, and then it is the labels' wire bytes |
| Names.WireLength | src/domain.rs:10-20 | The labels of a text take one byte more than the text |
| Names.DomainNew | src/domain.rs:10-20 | `Ok` exactly when every part is at most 62 bytes and the text at most 253 bytes. The result is each part's length byte and bytes, in order, then one 0. A panic otherwise |
| Names.EmptyName | src/domain.rs:23 | `Domain::new("")` is `[0, 0]` |
| Names.EncodedNameShape | src/domain.rs:7 | An encoded name is 2 to 255 bytes long and ends in 0 |
| Names.ExampleComEncodes | src/domain.rs:92-98 | `Domain::new("example.com")` is `[7,e,x,a,m,p,l,e,3,c,o,m,0]` |
| Names.JoinedEncodes | src/domain.rs:10-20 | Dot-free parts of at most 62 bytes, joined by dots into a text of at most 253 bytes, encode to their labels, then 0 |
| Names.TwoPartsEncode | src/domain.rs:10-20 | `a.b` encodes to `[|a|] + a + [|b|] + b + [0]` for any two dot-free parts under 63 bytes |
| Names.ThreePartsEncode | src/domain.rs:10-20 | `a.b.c` encodes to the three labels, then 0, for any three dot-free parts under 63 bytes |
| Names.LabelAt | src/domain.rs:65-74 | `Label::from_bytes` at offset `p`: `Ok` exactly when there is a length byte of at most 63 and that many bytes follow it. The result is those bytes. A panic otherwise |
| Names.LabelFromBytes | src/domain.rs:65-74 | The cursor method agrees with `LabelAt` and consumes the length byte and the label |
| Names.PushLabel | src/domain.rs:42-45 | `Ok` exactly when the name stays within 255 bytes, and then it appends the length byte and the label. A panic otherwise |
| Names.Pass | src/domain.rs:26-37 | One pass of the loop either returns or continues. If it continues, the name is strictly longer, the offset has not moved back, and both stay in bounds. An `Ok` return stops on a 0 octet. An `Err` return comes from the end of the buffer or top bits 01/10 |
| Names.Walk | src/domain.rs:22-41 | The loop's result: an `Ok` extends the starting name, fits 255 bytes and stops on a 0 octet; an `Err` stops at the end or on a 01/10 octet |
| Names.OnePass | src/domain.rs:26-37 | The loop body on the cursor agrees with `Pass` and leaves the cursor where the next pass starts |
| Names.FromBytes | src/domain.rs:22-41 | `Domain::from_bytes` returns `Walk`'s result from `[0, 0]`. Unless it panics, it leaves the cursor where `Walk` stops |
| Names.LabelStep | src/domain.rs:28-29 | A label octet consumes exactly `1 + len` bytes and appends the length byte and the label, or panics when the name would overflow |
| Names.PointerStep | src/domain.rs:31-34 | A pointer octet reads the label at offset `octet & 0x3F` and leaves the outer offset unchanged |
| Names.WireHoldsLabels | src/domain.rs:65-74 | A buffer that holds the wire bytes of non-empty labels holds, label after label, a length octet that `Label::from_bytes` reads as that label |
| Names.LabelsDecode | src/domain.rs:22-45 | Labels of 1 to 63 bytes followed by a 0 decode to the name so far plus their wire bytes, when that fits 255 bytes. The cursor stops on the unconsumed 0 |
| Names.LabelsOverflow | src/domain.rs:22-45 | Labels of 1 to 63 bytes that would take the name past 255 bytes make decoding panic |
| Names.LabelThenRest | src/domain.rs:28-29 | A label octet, then a walk that reads the rest, is one walk that reads the label and the rest |
| Names.LabelWalk | src/domain.rs:28-29 | A label octet that fits is pushed, and the loop goes on right after the label |
| Names.LabelPanics | src/domain.rs:42-45 | A label octet whose label would take the name past 255 bytes panics where it stands |
| Names.WireCons | src/domain.rs:14-17 | The wire bytes of labels are the first label's length byte and bytes, then the others' wire bytes |
| Names.PointerPanics | src/domain.rs:31-34 | Decoding from a pointer octet always panics: it never returns `Ok` or `Err` |
| Names.WalkOkIsBytes | src/domain.rs:22-41 | For every buffer, an `Ok` result is the starting name followed by exactly the buffer bytes between the start and the stop offset. No byte read through a pointer reaches it |
| Names.EmptyPartEndsName | src/domain.rs:10-41 | For every text `Domain::new` accepts, decoding its encoding stops on the first empty part's 0 octet. It returns `[0, 0]` plus only the labels of the parts before it |
| Names.Rejects | src/domain.rs:26-36 | At the end of the buffer, or on an octet with top bits 01/10, the result is `Err` and nothing is consumed |
| Names.EncodedNameDecodes | src/domain.rs:10-45 | Decoding what `Domain::new` produces (without empty parts) gives `[0, 0]` plus the labels, stopping on the terminator. It panics for a 253-byte text |
| Names.ExampleComDecodes | src/domain.rs:84-90 | The test's `example.com` bytes decode `Ok` to `[0, 0]` plus the labels, stopping at offset 12 |
| Names.WireDecodes | src/domain.rs:22-45 | Any non-empty labels followed by a 0, at the start of a buffer, decode `Ok` to `[0, 0]` plus their wire bytes, stopping on the 0 |
| Writing.Encoder.constructor | src/encoder.rs:8-12 | A new encoder is empty |
| Writing.Encoder.TryWriteSlice | src/encoder.rs:17-19 | Appends and succeeds exactly when the result fits 512 bytes; otherwise fails and changes nothing |
| Writing.Encoder.TryWriteU16 | src/encoder.rs:14-16 | On success, appends exactly `[x / 256, x % 256]`; otherwise changes nothing |
| Writing.Encoder.Bytes | src/encoder.rs:21-23 | Returns the successful writes concatenated in order, at most 512 bytes |
| Records.NewHeader | src/lib.rs:32 | `Header::new(id, flags)` keeps the id and flags and sets every count to 0 |
| Records.EncodeHeader | src/lib.rs:34 | An encoded header is 12 bytes |
| Records.HeaderRoundTrip | src/header.rs:1-9 | Decoding an encoded header gives the header back |
| Records.HeaderBytesRoundTrip | src/header.rs:1-9 | Every 12-byte string is the encoding of the header it decodes to |
| Records.FieldBytes | src/header.rs:1-9 | A field read from two bytes writes back as those two bytes |
| Records.SixPairs | src/header.rs:1-9 | Twelve header bytes are the six consecutive two-byte fields |
| Records.HeaderAt | src/message.rs:16 | `Header::decode` at offset `p`: `Ok` exactly when 12 bytes remain, and then its encoding is those bytes |
| Records.DecodeHeader | src/message.rs:16 | The cursor method agrees with `HeaderAt` and advances 12 |
| Records.EncodeQuery | src/lib.rs:41 | `Query::encode`: the name unchanged, then 4 more bytes |
| Records.QueryCodesRoundTrip | src/lib.rs:36-41 | The 4 bytes after the name read back as the question's own QTYPE and QCLASS |
| Messages.RecordsAt | src/message.rs:21-23 | Reading `count` records back to back gives exactly `count` records and ends inside the buffer |
| Messages.PanicPersists | src/message.rs:21-23 | Once a record read panics, the whole section panics |
| Messages.Read | src/message.rs:19-29 | Running a question or record reader on the cursor returns its value and moves the cursor to where the reader stopped, or panics when the reader does |
| Messages.DecodeRecords | src/message.rs:21-29 | Each section loop agrees with `RecordsAt` and leaves the cursor after the last record |
| Messages.SectionsAt | src/message.rs:21-29 | The answer, authority and additional sections hold exactly the header's an, ns and ad counts of records, and end inside the buffer |
| Messages.DecodeSections | src/message.rs:21-29 | The three section loops, one after the other on one cursor, agree with `SectionsAt`: they panic exactly when it does |
| Messages.MessageAt | src/message.rs:15-31 | The stored header is the decoded header, and `|answer|`, `|authority|` and `|additional|` equal the header's an, ns and ad counts |
| Messages.Decode | src/message.rs:15-31 | `Message::decode` agrees with `MessageAt` over one cursor: it panics exactly when `MessageAt` does |
| Messages.MessageParts | src/message.rs:15-31 | A decoded message's question is read right after the header, and its sections are read right after the question |
| Messages.RecordsSplit | src/message.rs:21-29 | Reading `m + n` records is reading `m`, then `n` more from where they ended |
| Messages.RecordsAppend | src/message.rs:21-29 | Two runs of records read back to back are one run of their total length |
| Messages.ThreeRuns | src/message.rs:21-29 | Three runs read back to back are one run of their total length |
| Messages.SectionsInOneRun | src/message.rs:21-29 | The three sections are one run of `an + ns + ad` records, cut at the counts |
| Messages.SectionsAreOneRun | src/message.rs:18-29 | The question is read right after the header. The three sections are one run of `an + ns + ad` records right after the question, cut at the counts |
| Messages.RecordsIgnoreTrailing | src/message.rs:21-29 | Bytes appended after the records do not change the records read |
| Messages.TrailingBytesIgnored | src/message.rs:15-31 | No check is made on trailing bytes: appending bytes does not change the decoded message or where it ends |
| Queries.QueryHeader | src/lib.rs:32-33 | The query header has the id, flags `0x0100`, one question and no records |
| Queries.QueryWire | src/lib.rs:25-44 | `build_query`: `Ok` exactly when `Domain::new` accepts the text, and then it is `18 + |text|` bytes, within the 281-byte capacity. A panic otherwise, including for texts over 255 bytes |
| Queries.BuildQuery | src/lib.rs:25-44 | The imperative `build_query` agrees with `QueryWire`, and its appends never overflow 281 bytes |
| Queries.QueryHeaderBytes | src/lib.rs:32-34 | The first 12 bytes are `id` big-endian, `01 00`, `00 01` and six zeros, and they decode to that header |
| Queries.HeaderBytes | src/header.rs:1-9 | A header's 12 bytes, field by field, high byte first |
| Queries.QueryQuestionBytes | src/lib.rs:36-41 | After the header come the encoded name, then a QTYPE that reads back as `qtype`, then class IN, `00 01` |
| Queries.QueryNameDecodes | src/lib.rs:37 | The name inside a query decodes with `Domain::from_bytes` from offset 12 to `[0, 0]` plus its labels, stopping on its terminator |
| Queries.CheckQueryHex | src/lib.rs:46-53 | `build_query(0x3c5f, A, "www.example.com")` is the bytes of hex `3c5f0100000100000000000003777777076578616d706c6503636f6d0000010001` |
| Queries.QueryLayout | src/lib.rs:25-44 | A query is `id` big-endian, `01 00 00 01` and six zeros, then the encoded name, the QTYPE big-endian and `00 01` |
| Queries.QuestionBytes | src/lib.rs:36-41 | A class-IN question is the name, the QTYPE code big-endian, then `00 01` |

## Left out

- `send_query` (src/lib.rs:55-73) is not modelled. It is UDP socket I/O, and it draws the query id from `rand::random()`.
- The `example_com` test (src/lib.rs:75-85) is not modelled. It needs the network and refers to an `RData::A` variant that src/rr.rs does not define.
- `Domain::as_str` (src/domain.rs:51-54) is not modelled. It is dead code and relies on the standard library's UTF-8 validation.
- The bodies of `Query::decode` and `ResponseRecord::decode` are not part of this model.
  - `Messages.Decode` takes them as reader parameters, which return a value and the new cursor offset, or panic.
  - The one assumption about a reader is that it moves forward and stays in the buffer (`Messages.Forward`).
  - So the model says nothing about how a question or a record is laid out on the wire.
- Messages.TrailingBytesIgnored: this holds only for readers that do not look past the bytes they consume (`Messages.Stable`). The model cannot say this of the real readers, because their bodies are not part of it.
- The bodies of `Header::encode` and `Header::decode` are not part of this model. They are modelled as the six 16-bit fields of src/header.rs, big-endian, in declaration order. `Header::decode` is modelled as taking the 12 header bytes off the cursor and reading the six fields from them, so it panics when fewer than 12 bytes remain.
- `Header::new` is not part of this model. It is taken to set every count to 0, which is what the test vector of src/lib.rs:46-53 shows.
- `Query::encode` is not part of this model. It is taken to be the name, then QTYPE and QCLASS as big-endian u16.
- `domain::encode` and `Domain::from_iter` are not part of this model. Together they are taken to be `Domain::new`, whose output the test vector matches.
- `Decoder::clone_at_index` is not part of this model. It is taken to be a fresh cursor at an absolute offset. An offset past the end of the buffer is taken to panic, as slicing there does; `Names.Pass` says so for the pointer arm.
- `push_label`, `Label::new` and `Label::from_bytes` fill fixed-capacity `ArrayVec`s in place. They are modelled as functions on sequences, with the capacity checks written out. Their in-place update and the aliasing of those arrays are not modelled.
- Cursor.Decoder.ReadSlice, Cursor.Decoder.ReadU16 and Cursor.Decoder.ReadU32 require at least `n`, 2 and 4 unread bytes. They do not model the panic that `split_at` raises when fewer remain (src/decoder.rs:36). `Names.LabelFromBytes` and `Records.DecodeHeader` check the length first and return `Panic` themselves. `Messages.Read` only moves the cursor to where a reader stopped, which `Messages.Forward` keeps inside the buffer.
- `Message::decode` takes its cursor by value. `Messages.Decode` takes a cursor object and also states where the cursor ends up.
- Panic messages and the derived `Debug`, `Clone` and `Eq` impls are not modelled.
- The `usize::try_from(..).unwrap()` conversions are not modelled. They cannot fail on these values.
- Transaction-id checks, typed RData, rdata-length checks, pointer-hop limits and header-count capping are not modelled. None of them is in the code.
