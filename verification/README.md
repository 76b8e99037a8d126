# Verification of the signet clients

A Dafny model of the parts of the signet client libraries that carry unbounded guarantees, and proofs of
those guarantees. `dafny verify dfyconfig.toml` checks everything.

**Bech32** (`csharp/SopsEncrypt.cs`). `BitStrings` holds bit strings, `Regrouping` the 5-bit and 8-bit
regrouping on its 32-bit accumulator, `Checksum`, `BurstDetection` and `PairDetection` the BCH register of
BIP 173, `Bech32` the encoder and the strict decoder on all strings, with the case mapping of .NET as a
parameter. The loops are methods, each proved against a function; the two are shown to be a bijection, with
the exact burst-detection bound and the exact distances at which two changed symbols can cancel. `Bech32Anchors`
ties both to what lies outside them: a string of BIP 173, the charset, the exact conditions of the errors.

**Age files** (same source file). `LineWrap` holds the line wrapper and its two uses, `Base64` the two base64
forms, `Base64Anchors` their characters byte by byte as RFC 4648 gives them, `AgeFile` the writer and a reader of
the age-encryption.org/v1 format with its STREAM chunks, which derives its keys and finds its lines by itself, `Recipient` the way from a recipient string to a file that its identity opens. Key derivation, MAC,
X25519 and the AEAD are functions of a `Primitives` record: seal and open are inverse, the exchange commutes.

**Protobuf JSON values** (`typescript/src/gen/google/protobuf/struct.ts`). `Wire` holds varints, fixed64,
length-delimited records and skipping as the Protocol Buffers Encoding specification defines them,
`JsonValues` the specification of the four encoders and decoders, `StructCodec` the methods on a shared
writer with fork and join and a shared reader with a position and the depth counter, `JsonRoundTrip` the
round trip and the exact recursion limit, `StructMessages` whole messages from a fresh writer to a fresh reader,
`UnknownFields` what the decoders pass over. Numbers are opaque 64-bit patterns.

**Calendar** (`rust/src/sops_encrypt.rs`). `Calendar` shows the closed form to be day counting, `Timestamp`
the printed form to be unambiguous and ordered like time.

**Restart locks** (`go/restart.go`, `python/src/signet_client/restart.py`, `typescript/src/restart.ts`).
`LockProtocol` holds what the Go and Python locks share, `Runs` what any run of a machine has. `GoLock` and
`PyLock` are interleaving machines: one action for each atomic step of each goroutine or thread, none where
the step would block; a run is any sequence of actions. `reportLost` of the Go client is two steps, because
the check and the send are not under one hold of the mutex. `GoLockLoss` and `PyLockLoss` say what becomes of every
failure and what the caller is answered, in terms of the actions alone. `TsLock` has the three objects of the TypeScript
client as classes, one method for each callback, and the same steps on values for the statements about whole
runs; `TsLockAnswers` says what acquiring answers and what release does.

**Mailbox, watch, debounce, lease** (`typescript/src/async-mailbox.ts`, `typescript/src/restart.ts`). `Mailbox`
and `Watching` have the classes with their source fields; a promise is the number of calls made before it
(`Promises`). `WatchLoop` is the reconnect loop over a script of outside events, `Debounce` the wait for a
quiet gap on a watch that coalesces, `Lease` the heartbeat interval against the server's expiry rule.
`GoWatch` is the Go form of the reconnect loop (`go/restart.go`) with its one-slot channel; `WatchScripts` says of
both what each answer of the outside does, and tells whole runs as lists of connection attempts.

Where code and documentation differ the code is followed:

- `go/restart.go:145-148` says a loss is reported before Release is called. A loss whose check was passed
  before can still arrive after; `GoLockRuns.LateLossExactly` says exactly when.
- `typescript/src/restart.ts:511-514`, `go/restart.go:188-191` and
  `python/src/signet_client/restart.py:142-145` say heartbeats are sent until the lock is lost, the first
  also until the signal is aborted. Once the lock is held neither stops them: `TsLock.HeartbeatGoesOn`,
  `GoLockRuns.TickAfterLoss` and `PyLock.BeatAfterLoss` are runs on which one follows, and
  `TsLock.MoreHeartbeatsExactly`, `GoLockRuns.MoreTicksExactly` and `PyLock.MoreBeatsExactly` say exactly when
  one can. This speaks of the loops against their stream interfaces. The stream may refuse the next send by
  itself, as Send of a gRPC stream in Go answers io.EOF after Recv has failed; the loop then ends there.
- `typescript/src/restart.ts:177-231` doubles up to a cap, but the first sleep is not capped: with a minimum
  above the maximum it lasts longer than the maximum, which `WatchLoop.BackoffClosedForm` makes exact.
- Maps with the key `__proto__` or with undefined entries lose them on the wire;
  `JsonRoundTrip.RoundTripExactly` says which values survive unchanged.

## Model

| member | source | states |
|---|---|---|
| Regrouping.RegisterStep | csharp/SopsEncrypt.cs:478-496 | One input value more in the 32-bit accumulator: its low bits are the old ones followed by the value's bits, although the shift throws away whatever leaves the word |
| Regrouping.DrainGroups | csharp/SopsEncrypt.cs:491-495 | The inner loop takes whole groups off the front of the bit string seen so far and leaves fewer than one group in the register |
| Regrouping.ConvertBits | csharp/SopsEncrypt.cs:478-513 | For every input, width and padding mode the loop answers what regrouping the unbounded bit string answers: the groups, the padded last group, or the range and padding errors |
| Regrouping.PaddedThenExact | csharp/SopsEncrypt.cs:372-435 | Bytes regrouped with padding and then back without it are the same bytes, for every group width |
| Regrouping.ExactThenPadded | csharp/SopsEncrypt.cs:498-510 | Whatever the strict direction accepts is exactly what the padding direction writes for its answer, so zero padding is unique |
| Regrouping.RefusedExactly | csharp/SopsEncrypt.cs:478-513 | The range error exactly for a value too wide for its group; otherwise, without padding, the padding error exactly when the bits left over are a whole input group or not all zero |
| Checksum.Mix | csharp/SopsEncrypt.cs:443-455 | One turn of Polymod's outer loop, with its inner loop over the five generators, is the register step |
| Checksum.Polymod | csharp/SopsEncrypt.cs:440-458 | The nested loops compute the run of the register from 1 over all values |
| Checksum.RunLinear | csharp/SopsEncrypt.cs:440-458 | The exclusive-or of two runs over words of one length is the run of the exclusive-or |
| Checksum.ShiftBijective | csharp/SopsEncrypt.cs:443-455 | The step is a bijection on 30-bit states, with an explicit inverse both ways |
| Checksum.StepIsPolynomialDivision | csharp/SopsEncrypt.cs:360-360 | A step multiplies the register polynomial over GF(32) by x, adds the symbol and reduces by the generator polynomial of BIP 173, coefficient by coefficient |
| BurstDetection.WindowInjective | csharp/SopsEncrypt.cs:440-458 | From one state, two different windows of at most six symbols never end in the same state |
| BurstDetection.BurstDetected | csharp/SopsEncrypt.cs:431-458 | Changing symbols only within six consecutive ones turns no valid word into a valid word, at any length |
| BurstDetection.SevenCanEscape | csharp/SopsEncrypt.cs:431-458 | Six is exact: in every valid word and every window of seven symbols there is a change that goes unnoticed |
| BurstDetection.CreateChecksum | csharp/SopsEncrypt.cs:388-401 | The loop writes the six symbols of the checksum, most significant first |
| BurstDetection.SteerReaches | csharp/SopsEncrypt.cs:388-401 | Six symbols, computed from the register, lead from any state to any wanted state |
| BurstDetection.ChecksumValid | csharp/SopsEncrypt.cs:388-401 | A word with its checksum appended is accepted |
| BurstDetection.ChecksumUnique | csharp/SopsEncrypt.cs:388-434 | Of all six-symbol endings the computed checksum is the only accepted one |
| PairDetection.ConstantExactly | csharp/SopsEncrypt.cs:440-458 | Modulo the generator a power of x is a constant exactly when 1023 divides the exponent, and then it is 1 |
| PairDetection.ChangeComesBack | csharp/SopsEncrypt.cs:440-458 | A changed symbol has become the change of a single symbol after n steps exactly when 1023 divides n, and then it is the same change |
| PairDetection.TwoChangesExactly | csharp/SopsEncrypt.cs:431-458 | Changing two symbols of a valid word, at any distance and with any prefix, leaves it valid if and only if the distance is a multiple of 1023 and both change by the same difference |
| Bech32.AsciiIsLawful | csharp/SopsEncrypt.cs:405-417 | The laws assumed of the case mapping are met by the one that maps ASCII letters only |
| Bech32.HrpExpand | csharp/SopsEncrypt.cs:460-476 | The loops write twice the length of the prefix and one more: character i of the lower-cased prefix divided by 32 (cut to a byte) at i, a zero in the middle, character i modulo 32 behind it |
| Bech32.ExpandMeans | csharp/SopsEncrypt.cs:460-476 | For a prefix of characters below 0x2000 the upper part, the zero and the lower part are such that 32 times the one plus the other is the lower-cased character |
| Bech32.Encode | csharp/SopsEncrypt.cs:369-386 | The builder writes prefix, separator, symbols and checksum as specified by the encoding function |
| Bech32.ReadSymbols | csharp/SopsEncrypt.cs:419-429 | The loop of Decode over the data characters, with its error |
| Bech32.Decode | csharp/SopsEncrypt.cs:403-438 | Every branch of the decoder in order: mixed case, separator, character, checksum, padding, or the answer |
| Bech32.RoundTrip | csharp/SopsEncrypt.cs:369-438 | Decoding an encoding gives the lower-cased prefix and the bytes, for every prefix and all bytes; only the empty prefix is refused |
| Bech32.Canonical | csharp/SopsEncrypt.cs:403-438 | Whatever is accepted is, lower-cased, the encoding of the answer |
| Bech32.AcceptedExactly | csharp/SopsEncrypt.cs:369-438 | A string is answered with a prefix and bytes if and only if it is of one case, starts with that non-empty prefix and is their encoding but for case |
| Bech32.CaseDoesNotMatter | csharp/SopsEncrypt.cs:405-417 | A string of one case is answered as its lower-cased form is, except that the prefix is returned in its own case |
| Bech32.DecodeInjective | csharp/SopsEncrypt.cs:403-438 | Two accepted strings with the same answer differ in case at most |
| Bech32Anchors.KnownString | csharp/SopsEncrypt.cs:369-438 | The test vector of BIP 173: a and no bytes is a12uel5l, both ways |
| Bech32Anchors.CharsetIs | csharp/SopsEncrypt.cs:359-359 | The 32 symbols are written with the 32 characters of BIP 173 in its order |
| Bech32Anchors.MixedExactly | csharp/SopsEncrypt.cs:405-408 | The mixed-case error exactly when some character changes when lower-cased and some when upper-cased |
| Bech32Anchors.SeparatorExactly | csharp/SopsEncrypt.cs:410-414 | The separator error exactly, for strings of one case, when the last 1 does not have a character before it and six after it |
| Bech32Anchors.CharacterExactly | csharp/SopsEncrypt.cs:419-426 | The character error exactly when neither of the two holds and some character of the data part, lower-cased, is not one of the 32 |
| Bech32Anchors.UpperCaseAccepted | csharp/SopsEncrypt.cs:405-417 | An accepted lower-case ASCII string is accepted in upper case as well, with the same bytes and its prefix in upper case |
| Bech32.BurstOfCharacters | csharp/SopsEncrypt.cs:419-434 | Overwriting characters of an accepted string within six consecutive positions of the data part by other charset characters is refused, as an invalid checksum or, before that, as mixed case |
| Bech32.PairOfCharacters | csharp/SopsEncrypt.cs:419-434 | The same for two characters of the data part at any distance that is not a multiple of 1023 |
| LineWrap.WrapBase64 | csharp/SopsEncrypt.cs:330-348 | The loop with its counter of characters written equals cutting 64-character lines off the front; LastLineEmpty holds exactly for multiples of 64 |
| LineWrap.WrappedLayout | csharp/SopsEncrypt.cs:330-348 | Character k of the text is at k + k / 64 of the wrapped text, every 65th character of which is a newline, and nothing else is in it |
| LineWrap.StanzaBodyReadsBack | csharp/SopsEncrypt.cs:256-257 | Wrapped text and its unconditional LF are recovered, with everything after them, by reading lines up to the first shorter than 64 |
| LineWrap.StanzaBodyUnique | csharp/SopsEncrypt.cs:256-257 | Only the wrapped form of its answer is accepted by that reader |
| LineWrap.ArmorBodyReadsBack | csharp/SopsEncrypt.cs:277-284 | The armor form, with its LF only when one is missing, is recovered exactly |
| LineWrap.ArmorBodyUnique | csharp/SopsEncrypt.cs:277-284 | Only the armor form of its answer is accepted by the armor reader |
| LineWrap.ArmorHasNoBlankLine | csharp/SopsEncrypt.cs:277-284 | The armor form never holds a blank line |
| LineWrap.StanzaBlankLine | csharp/SopsEncrypt.cs:256-257 | The stanza form ends in a blank line exactly when the length is a multiple of 64 |
| LineWrap.DerToPem | typescript/src/workload.ts:337-344 | The loop that slices and the template produce the PEM text |
| LineWrap.ArmorEqualsPem | typescript/src/workload.ts:337-344 | The armor body equals the PEM body of the same base64 text exactly when the text is not empty |
| Base64.RawRoundTrip | csharp/SopsEncrypt.cs:320-320 | The unpadded base64 text reads back to the bytes, and trimming '=' from the padded text gives it |
| Base64.PaddedRoundTrip | csharp/SopsEncrypt.cs:277-277 | The padded base64 text reads back to the bytes |
| Base64Anchors.AlphabetIs | csharp/SopsEncrypt.cs:277-277 | The alphabet of RFC 4648, Table 1 |
| Base64Anchors.ThreeBytes | csharp/SopsEncrypt.cs:277-277 | Three bytes at the front are four characters at the front, given by the sextets of RFC 4648 section 4, in both forms |
| Base64Anchors.LastBytes | csharp/SopsEncrypt.cs:277-277 | One byte at the end is two characters and ==, two bytes are three characters and =, none is the empty text |
| Base64Anchors.PaddedLength | csharp/SopsEncrypt.cs:277-277 | A padded text has four characters for every three bytes or part of them |
| Base64Anchors.Vectors | csharp/SopsEncrypt.cs:277-277 | Three of the test vectors of RFC 4648 section 10 |
| AgeFile.EncryptArmored | csharp/SopsEncrypt.cs:233-288 | The builder writes the armor of the file whose header, MAC and payload are specified separately, for all random values |
| AgeFile.ArmorReadsBack | csharp/SopsEncrypt.cs:276-287 | De-armoring gives back every file |
| AgeFile.FileReadsBack | csharp/SopsEncrypt.cs:252-274 | A reader that parses the version line, the stanza lines, the MAC line and the payload gets every part back, and the bytes the MAC covers: through the three dashes |
| AgeFile.RecipientOpens | csharp/SopsEncrypt.cs:233-288 | Whoever holds the recipient's private key and derives wrapping key, MAC key and stream key as the format says gets exactly the data key back, for every key, random value and recipient, if it fits one chunk of 65536 bytes |
| AgeFile.ChunkLimitExactly | csharp/SopsEncrypt.cs:268-274 | For every length, all data keys of that length open with all lawful primitives if and only if the length is at most a chunk |
| AgeFile.ArmorIsPem | csharp/SopsEncrypt.cs:276-287 | The armor is what derToPem writes of the same bytes under another label, for every file but the empty one |
| AgeFile.ToyIsLawful | csharp/SopsEncrypt.cs:290-318 | The laws assumed of the primitives can be met |
| Recipient.AcceptedRecipients | csharp/SopsEncrypt.cs:77-84 | The recipient strings accepted are exactly the lower-case encodings of 32-byte keys under the prefix age |
| Recipient.RecipientStringOpens | csharp/SopsEncrypt.cs:67-104 | A data key encrypted to the recipient string of an identity is opened by that identity |
| Wire.Uint32ReadsBack | typescript/src/gen/google/protobuf/struct.ts:134-141 | A varint reads back with the bytes after it |
| Wire.Uint32Exactly | typescript/src/gen/google/protobuf/struct.ts:134-134 | A varint is read exactly when one of the next ten bytes is below 128, the error otherwise says whether ten were there, and a longer number gives its low 32 bits (for a boolean its low 64 decide) |
| Wire.FrameReadsBack | typescript/src/gen/google/protobuf/struct.ts:237-239 | A length-delimited record reads back with the bytes after it |
| StructCodec.BinaryWriter.Join | typescript/src/gen/google/protobuf/struct.ts:117-117 | join puts the forked content behind its length into the buffer forked from, or throws when the length has more than 32 bits |
| StructCodec.EncodeValue | typescript/src/gen/google/protobuf/struct.ts:328-348 | encode of wrap appends exactly the bytes of the value to a shared writer, and throws exactly when some length does not fit |
| StructCodec.EncodeList | typescript/src/gen/google/protobuf/struct.ts:538-543 | The same for a list |
| StructCodec.WrapStruct | typescript/src/gen/google/protobuf/struct.ts:209-218 | Struct.wrap gives the entries without the key __proto__ in their order, and that changes nothing on the wire |
| StructCodec.EncodeStruct | typescript/src/gen/google/protobuf/struct.ts:114-121 | The same for a map: one record for each entry that is not undefined |
| StructCodec.EncodeEntry | typescript/src/gen/google/protobuf/struct.ts:236-244 | The same for an entry: no key record for the empty key |
| StructCodec.ReadValue | typescript/src/gen/google/protobuf/struct.ts:350-421 | decode on a shared reader answers what the specification answers from the bytes left, the depth and the end (the length given, or the end of the buffer without one), and every exit, also by an error, restores the depth counter |
| StructCodec.ReadValueMember | typescript/src/gen/google/protobuf/struct.ts:362-415 | The switch of Value.decode, its unknown fields and the depth restored by nested messages |
| StructCodec.ReadList | typescript/src/gen/google/protobuf/struct.ts:545-576 | The same for ListValue.decode |
| StructCodec.ReadStruct | typescript/src/gen/google/protobuf/struct.ts:123-157 | The same for Struct.decode |
| StructCodec.ReadEntry | typescript/src/gen/google/protobuf/struct.ts:246-285 | The same for Struct_FieldsEntry.decode |
| UnknownFields.SkipsField | typescript/src/gen/google/protobuf/struct.ts:412-415 | skip reads a field of any wire type exactly to its end, groups nested to any depth included, whose end tags bear their numbers |
| UnknownFields.UnknownFieldIgnored | typescript/src/gen/google/protobuf/struct.ts:412-415 | A field the message Value does not have, by number or by wire type, changes nothing wherever it stands |
| UnknownFields.UnknownInContainers | typescript/src/gen/google/protobuf/struct.ts:148-151 | The same for ListValue, Struct and the entries of a map |
| UnknownFields.EndTagStops | typescript/src/gen/google/protobuf/struct.ts:412-414 | An end-group tag or a zero tag ends a message of any of the four kinds before its length is used up |
| UnknownFields.TwoMembers | typescript/src/gen/google/protobuf/struct.ts:362-397 | Of two scalar members in one message the text is unwrapped before the number, that before the boolean, that before null, whatever their order; of one kind the last counts |
| StructMessages.PutLooksUp | typescript/src/gen/google/protobuf/struct.ts:141-145 | An entry that arrives replaces the value under its key and touches no other key; the key __proto__ and an undefined value change nothing |
| StructMessages.ValueThereAndBack | typescript/src/gen/google/protobuf/struct.ts:328-421 | A fresh writer, its bytes, and a fresh reader without a length: encode throws exactly when a length does not fit, and decode gives the value without what never reaches the wire, at the end of the bytes, exactly when its cost is at most 100, and the recursion error otherwise |
| StructMessages.ListThereAndBack | typescript/src/gen/google/protobuf/struct.ts:538-576 | The same for ListValue |
| StructMessages.StructThereAndBack | typescript/src/gen/google/protobuf/struct.ts:114-157 | The same for Struct |
| StructMessages.ScalarVectors | typescript/src/gen/google/protobuf/struct.ts:328-348 | The bytes of undefined, null, the booleans and a text, as the Protocol Buffers Encoding specification writes them |
| StructMessages.NumberVector | typescript/src/gen/google/protobuf/struct.ts:328-348 | The bytes of 1.0 |
| StructMessages.ListVector | typescript/src/gen/google/protobuf/struct.ts:538-543 | The bytes of [null, true] |
| StructMessages.ObjectVector | typescript/src/gen/google/protobuf/struct.ts:236-244 | The bytes of {"a": null} |
| JsonRoundTrip.WrapUnwrap | typescript/src/gen/google/protobuf/struct.ts:495-530 | unwrap undoes wrap on every value |
| JsonRoundTrip.ValueDecodes | typescript/src/gen/google/protobuf/struct.ts:328-421 | Decoding the bytes of a value at any depth, with anything behind them, gives the value and the position right behind its frame if depth and cost stay within 100, and the recursion error otherwise |
| JsonRoundTrip.ListDecodes | typescript/src/gen/google/protobuf/struct.ts:538-576 | The same for the elements of a list: the width never counts, the deepest element does |
| JsonRoundTrip.StructDecodes | typescript/src/gen/google/protobuf/struct.ts:114-157 | The same for the entries of a map |
| JsonRoundTrip.RoundTrip | typescript/src/gen/google/protobuf/struct.ts:114-157 | On a fresh reader the value comes back, without undefined entries and the key __proto__, if and only if its cost (1 for a scalar, 2 for an empty list or map, 2 plus the deepest element, 3 plus the deepest entry) is at most 100 |
| JsonRoundTrip.RoundTripExactly | typescript/src/gen/google/protobuf/struct.ts:209-228 | A value comes back unchanged exactly when its cost is at most 100 and no map in it has an undefined entry or the key __proto__ |
| Calendar.CivilEpoch | rust/src/sops_encrypt.rs:257-269 | Day 0 is 1970-01-01 |
| Calendar.CivilNextDay | rust/src/sops_encrypt.rs:257-269 | For every day, before and after the epoch, the date is valid and the next day's date is the next date of the Gregorian calendar |
| Calendar.CivilCountsDays | rust/src/sops_encrypt.rs:257-269 | The closed form equals counting days one at a time |
| Calendar.CivilIncreasing | rust/src/sops_encrypt.rs:257-269 | Later days have later dates |
| Calendar.CivilOnto | rust/src/sops_encrypt.rs:257-269 | Every valid date is the date of a day that is computed |
| Calendar.DaysOfCivil | rust/src/sops_encrypt.rs:257-269 | Computing the day of a date undoes the conversion |
| Calendar.NoOverflow | rust/src/sops_encrypt.rs:242-269 | For every 64-bit second count all intermediate values and unsigned subtractions fit their Rust types |
| Timestamp.TwentyCharacters | rust/src/sops_encrypt.rs:237-252 | Exactly the second counts through the year 9999 print as twenty characters |
| Timestamp.YearFitsExactly | rust/src/sops_encrypt.rs:237-252 | The bound is the first second of the year 10000 |
| Timestamp.PrintedReadsBack | rust/src/sops_encrypt.rs:237-252 | The printed form fits RFC 3339 section 5.6 and denotes the second count it was printed from |
| Timestamp.PrintedOrder | rust/src/sops_encrypt.rs:237-252 | Through the year 9999 an earlier time prints as a strictly smaller string |
| LockProtocol.FirstCallStillActs | go/restart.go:155-168 | Of any number of Release calls, in any interleaving, only the first acts; it stops the heartbeat, closes the stream once and returns only after the receive loop is done |
| GoLock.StepKeeps | go/restart.go:204-310 | Every atomic step of every goroutine keeps the invariant |
| GoLock.RunKeeps | go/restart.go:204-310 | The invariant holds on every run: what the receive loop still owes the acquired channel is what fits into it, and lostOnce guards the only value of the lost channel |
| GoLockRuns.OneOfEach | go/restart.go:170-183 | At most one send to acquired, one CloseSend, and one value ever in lost, which is either still there or was collected |
| GoLockRuns.SendsNeverBlock | go/restart.go:250-283 | The send to acquired is never blocked, also after the caller left on cancellation, and the first loss always finds room: the default branch of the non-blocking send is dead |
| GoLockRuns.ReceiveLoopEnds | go/restart.go:250-283 | From any point of any run the receive loop ends within five steps of its own once Recv fails |
| GoLockRuns.ReleaseCanReturn | go/restart.go:155-168 | The Release that closed the stream returns exactly when the receive loop has ended, which the loop's own steps bring about once Recv fails, whatever the other goroutines do |
| GoLockRuns.MoreTicksExactly | go/restart.go:291-309 | After ACQUIRED another heartbeat can be sent on some continuation if and only if a tick was chosen, can be chosen (always unless the select was parked when the context ended), or acquireLock has yet to start the loop; the loss of the lock is no condition |
| GoLockRuns.LoopRunsExactly | go/restart.go:291-309 | The heartbeat loop runs from the moment acquireLock took the ACQUIRED until a send fails or the loop notices that the context is done or the lock released, and nothing else ends it |
| GoLockRuns.TickAfterLoss | go/restart.go:291-309 | A run on which a heartbeat is sent after the loss was delivered, the lockStream still taking it |
| GoLockRuns.LossFollowsCheck | go/restart.go:170-183 | Every value in the lost channel comes from an earlier check, by the same goroutine and of the same error, that saw released false after ACQUIRED |
| GoLockRuns.LateLossExactly | go/restart.go:170-183 | Once Release was called a loss can still be delivered if and only if some goroutine has passed its check, has not sent, and no loss was sent before |
| GoLockRuns.LossAfterRelease | go/restart.go:170-183 | A run on which that happens: the promise that a loss is reported before Release only is not kept to the letter |
| GoLockRuns.TellsLatest | go/restart.go:264-277 | Token and expiry are those of the last messages that carried them, and acquired means an ACQUIRED came |
| GoLockRuns.HolderWasTold | go/restart.go:226-239 | acquireLock returns a lock only after an ACQUIRED message |
| GoLockRuns.SilentAfterReturn | go/restart.go:155-168 | After a closing Release returned, no message is received any more |
| GoLockLoss.FailureIsOnItsWay | go/restart.go:250-308 | On every run, in terms of its actions: a failed heartbeat, or a receive that failed after ACQUIRED, has not been checked yet, or was checked before any Release and waits to be sent or was sent, or was checked after a Release; nothing else is ever reported |
| GoLockLoss.LostIsFirstReported | go/restart.go:170-183 | The lost channel as a function of the actions: the failure of the goroutine that reported first, until the owner takes it |
| GoLockLoss.FailureReachesOwner | go/restart.go:170-183 | Unless Release was called or another failure was reported before, at most two steps of the failing goroutine put its failure into the lost channel |
| GoLockLoss.AnswersFirstNews | go/restart.go:226-239 | acquireLock returns a lock only if the first ACQUIRED came before any failing receive and an error only if that receive failed first, with that error; while it waits the answer is at most two steps away |
| GoLockLoss.GivesUpExactly | go/restart.go:226-239 | While acquireLock waits it can give up exactly when the context was cancelled |
| PyLock.RunKeeps | python/src/signet_client/restart.py:164-278 | The invariant holds on every run of the threads |
| PyLock.PutNeverBlocks | python/src/signet_client/restart.py:182-198 | The bounded queue always has room for what the receive loop puts, and a set lost_event means a written lost_error |
| PyLock.LostErrorIsFinal | python/src/signet_client/restart.py:107-127 | Once lost_error is written, or release has begun, it never changes on any continuation |
| PyLock.LostErrorIsFirstLoss | python/src/signet_client/restart.py:122-127 | lost_error is exactly the first loss reported before release began |
| PyLock.LateEvent | python/src/signet_client/restart.py:122-127 | After release began the event can still be set if and only if the error was written before |
| PyLock.ReceiveLoopEnds | python/src/signet_client/restart.py:209-263 | From any point of any run the receive loop ends within five steps of its own once recv raises |
| PyLock.ReleaseCanReturn | python/src/signet_client/restart.py:107-120 | The release that closed the stream returns exactly when the receive loop has ended, which the loop's own steps bring about once recv raises |
| PyLock.MoreBeatsExactly | python/src/signet_client/restart.py:266-278 | After ACQUIRED another heartbeat can be sent on some continuation if and only if the loop's wait has timed out, can time out because release has not set the stop event, or the loop has yet to be started; the loss of the lock is no condition |
| PyLock.OneBeatAfterStop | python/src/signet_client/restart.py:107-120 | After release has set the stop event at most one heartbeat follows on any continuation, and only if the wait had timed out before |
| PyLock.LoopRunsExactly | python/src/signet_client/restart.py:266-278 | The heartbeat loop runs from the moment the acquiring thread took the ACQUIRED until a send raises or the loop notices the stop event, and nothing else ends it |
| PyLock.BeatAfterLoss | python/src/signet_client/restart.py:266-278 | A run on which a heartbeat is sent after lost_error was written and lost_event set |
| PyLockLoss.TellsLatest | python/src/signet_client/restart.py:240-258 | Token and expiry are those of the last messages that carried them, and acquired means an ACQUIRED came |
| PyLockLoss.FailureIsOnItsWay | python/src/signet_client/restart.py:122-127 | lost_error and lost_event as functions of the actions of a run: the failure of the thread that reported first before release, and whether it went on to the event; every other failure is on its way or was dropped by its report |
| PyLockLoss.FailureReachesOwner | python/src/signet_client/restart.py:122-127 | Unless release began or another failure was written before, two steps of the failing thread write its failure and set the event |
| PyLockLoss.AnswersFirstNews | python/src/signet_client/restart.py:182-198 | acquire_lock returns a lock only if the first ACQUIRED came before any failing recv, and raises only the failure that came first; while it waits the answer is at most two steps away |
| Promises.SettleAt | typescript/src/async-mailbox.ts:30-32 | Shifting waiters off an array and resolving each gives every waiter the item and touches no one else |
| Mailbox.AsyncMailbox.PushValue | typescript/src/async-mailbox.ts:17-25 | The method does what the step on values does to the whole state |
| Mailbox.AsyncMailbox.PushTerminal | typescript/src/async-mailbox.ts:27-33 | The same, with its loop over the waiters |
| Mailbox.AsyncMailbox.Next | typescript/src/async-mailbox.ts:35-43 | The same; a promise is the number of calls before it |
| Mailbox.RunIsIdeal | typescript/src/async-mailbox.ts:12-44 | After every run the mailbox is a function of three things only: the values pushed before the terminal, the terminal, the number of calls |
| Mailbox.Determinacy | typescript/src/async-mailbox.ts:12-44 | The k-th next is settled exactly when the k-th value or a terminal is there, and with that; nothing is buffered while someone waits; no one waits after the terminal |
| Mailbox.ScheduleDoesNotMatter | typescript/src/async-mailbox.ts:12-44 | Two schedules of the same pushes and as many calls leave the same state and settle every promise alike |
| Mailbox.SettledStays | typescript/src/async-mailbox.ts:12-44 | A settled promise never changes |
| Watching.BundleWatch.SignalChange | typescript/src/restart.ts:121-129 | The method does what the step on values does to the whole state |
| Watching.BundleWatch.Close | typescript/src/restart.ts:132-138 | The same, with its loop over the waiters |
| Watching.BundleWatch.Next | typescript/src/restart.ts:145-154 | The same |
| Watching.RunIsIdeal | typescript/src/restart.ts:115-154 | After every run the watch is a function of the changes accepted, the calls of next, and whether it is closed |
| Watching.Conservation | typescript/src/restart.ts:115-154 | Accepted changes are the true results plus the pending slot, never more than the changes; false is given only after closing; closing leaves no call unanswered |
| Watching.NoChangeLost | typescript/src/restart.ts:115-154 | A change before closing answers with true a call unanswered so far, at the latest the next one, and stays pending until that call, closing or not |
| WatchLoop.Awaiting | typescript/src/restart.ts:190-212 | While a promise is awaited aborts and consumer calls go on, and the wait ends with the event that settles it |
| WatchLoop.SleepOrAborted | typescript/src/restart.ts:234-248 | A sleep ends with its timer or with the abort, and does not start once aborted |
| WatchLoop.RunWatchLoop | typescript/src/restart.ts:172-227 | The nested loops do, on every script of outside events, what the resumption steps do: same log, same state of the watch |
| WatchLoop.RunIsGood | typescript/src/restart.ts:172-227 | On every run the watch is closed once, exactly when the loop has returned, and only after an abort; the log of watch operations explains the watch; every sleep has the length its number in the row gives |
| WatchLoop.AbortEndsIt | typescript/src/restart.ts:190-223 | An abort ends the loop wherever it is |
| WatchLoop.NoOpenAfterAbort | typescript/src/restart.ts:182-200 | Once the signal is aborted no stream is opened on any continuation |
| WatchLoop.BackoffClosedForm | typescript/src/restart.ts:177-231 | The n-th sleep in a row, from 0, lasts min(min * 2^n, max) for all n if and only if min is at most max |
| WatchLoop.CappedDoubling | go/restart.go:92-98 | From the second sleep on the closed form needs only a cap that is not negative |
| WatchLoop.EverySleep | typescript/src/restart.ts:177-231 | Every sleep on every run lasts that long, counted since the start or the last message, whether opening or receiving failed |
| WatchLoop.ChangeReachesConsumer | typescript/src/restart.ts:182-226 | A CHANGED message received on any connection is answered by true, to a call not answered before it and at the latest the next, however often the stream breaks afterwards |
| WatchScripts.EveryReaction | typescript/src/restart.ts:190-223 | What each event does on every run not aborted: a stream that opens is received from and nothing else happens, a failure to open or receive adds exactly one sleep, a message resets the row of sleeps and signals the watch if and only if it says CHANGED, the timer opens again |
| WatchScripts.AbortedReaction | typescript/src/restart.ts:190-223 | On every aborted run whatever the loop awaits ends it when it settles: no sleep and no stream more, the watch closed |
| WatchScripts.ChangeAfterOpening | typescript/src/restart.ts:182-226 | A CHANGED message on a stream that was just opened, however the run got there and goes on, is answered by true |
| WatchScripts.AttemptsAre | typescript/src/restart.ts:172-227 | The whole log of a run told as connection attempts, each refused or carrying messages until it breaks: every message heard and signalled, one sleep and one new stream for each failure |
| GoWatch.StepKeeps | go/restart.go:49-90 | Every step of the loop, the cancellation and the consumer keeps the invariant |
| GoWatch.EveryRun | go/restart.go:49-98 | On every run the channel is closed exactly when the loop has returned, which takes a cancellation; what was sent was taken or is the one pending; the n-th sleep in a row, from 0, lasts min(2^n, 30) seconds |
| GoWatch.LateOpens | go/restart.go:53-64 | After a cancellation at most one more stream is opened, and none unless the loop had just looked |
| GoWatch.OpenAfterCancel | go/restart.go:53-64 | From a cancelled state a stream can still be opened if and only if the loop is between its look at the context and open |
| GoWatch.ChangeIsTaken | go/restart.go:66-82 | After a CHANGED message there is a change in the channel until the consumer has taken one, also after the channel was closed |
| WatchScripts.GoReactions | go/restart.go:49-98 | What each answer of the outside does to the goroutine on every run: after a successful open it receives, each failure is followed by one sleep of the closed-form length, a message fills the channel if and only if it says CHANGED, a cancellation ends it at its next look |
| WatchScripts.GoAttemptsAre | go/restart.go:49-98 | The whole log of a run told as connection attempts, and a change waits in the channel if and only if some message said so |
| TsLock.LockStream.Send | typescript/src/restart.ts:60-65 | A send after closeSend throws and writes nothing |
| TsLock.LockStream.CloseSend | typescript/src/restart.ts:72-76 | The stream is ended by the first call only |
| TsLock.Lock.Release | typescript/src/restart.ts:354-364 | What release does up to waiting for the receive loop, and that a later call does nothing |
| TsLock.Lock.FinishRelease | typescript/src/restart.ts:360-363 | The rest of release: its promise settles when the receive loop has ended, and not before |
| TsLock.Lock.ReportLost | typescript/src/restart.ts:377-382 | A loss is reported unless released or reported before |
| TsLock.Lock.OnTick | typescript/src/restart.ts:390-401 | A heartbeat is written, or the timer is stopped and the loss reported |
| TsLock.AcquireLockWithStream | typescript/src/restart.ts:419-434 | The initial request goes out before anything else; when it throws there is no session |
| TsLock.Acquisition.OnRecv | typescript/src/restart.ts:438-482 | A turn of the receive loop does to all three objects what the step on values does |
| TsLock.Acquisition.OnAbort | typescript/src/restart.ts:486-490 | The same for the abort of the race |
| TsLock.Acquisition.OnSettle | typescript/src/restart.ts:486-505 | The same for what runs after the race: the lock, or closeSend and the error |
| TsLock.Acquisition.OnRelease | typescript/src/restart.ts:354-364 | The same for release |
| TsLock.Acquisition.OnReleaseReturns | typescript/src/restart.ts:354-364 | The same for the end of release |
| TsLock.ReleaseCompletes | typescript/src/restart.ts:354-364 | After release has begun its promise can settle without a failing receive if and only if the receive loop has ended, and settles after a failing receive in any case |
| TsLock.MoreHeartbeatsExactly | typescript/src/restart.ts:390-408 | On some continuation of a run another heartbeat is written if and only if the stream is open, no abort is about to close it, and the timer runs or can still be started by ACQUIRED |
| TsLock.TimerRunsExactly | typescript/src/restart.ts:390-408 | The timer runs from ACQUIRED until release or the first tick that fails, and nothing else stops it |
| TsLock.HeartbeatsAfterAbort | typescript/src/restart.ts:483-504 | Once the signal is aborted, some continuation writes another heartbeat if and only if the lock is held and its timer runs |
| TsLock.HeartbeatsAfterLoss | typescript/src/restart.ts:377-401 | Once the lock is lost, some continuation writes another heartbeat if and only if its timer runs on an open stream that no abort is about to close |
| TsLock.HeartbeatGoesOn | typescript/src/restart.ts:511-514 | Runs on which a heartbeat is written after the signal was aborted, and after the lock was lost |
| TsLock.RunKeeps | typescript/src/restart.ts:419-505 | The invariant holds on every run: the stream is closed exactly when the lock was released or a caller with a signal gave up |
| TsLock.StreamCalls | typescript/src/restart.ts:58-76 | On every run the calls on the stream are the initial request, heartbeats only after ACQUIRED, and one end at most with nothing after it |
| TsLock.LostIsFirstLoss | typescript/src/restart.ts:377-401 | lost resolves once at most: with the first failing receive or heartbeat after ACQUIRED and before release, or never |
| TsLock.SilentAfterRelease | typescript/src/restart.ts:354-408 | Once release has begun nothing is lost, written or ended any more and no heartbeat runs |
| TsLock.OrphanStops | typescript/src/restart.ts:483-504 | An ACQUIRED after the caller gave up starts a heartbeat that stops at its first tick without writing |
| TsLock.TellsLatest | typescript/src/restart.ts:367-374 | ACQUIRED sets token and expiry, even to no expiry; TTL_EXTENDED changes the expiry only when it carries one; nothing else changes them |
| TsLockAnswers.HearsTheNews | typescript/src/restart.ts:437-477 | The receive loop hears everything up to its first failing receive; the promise of acquiring is settled by the first ACQUIRED or by a failure before it |
| TsLockAnswers.OutcomeHasItsReason | typescript/src/restart.ts:481-505 | A lock is returned only after an ACQUIRED, acquiring throws only after an abort or a failure before it, and undecided means neither came |
| TsLockAnswers.Answers | typescript/src/restart.ts:481-505 | What an undecided acquisition answers: the lock after ACQUIRED; after an earlier failure or an abort an error, the stream having been ended if there is a signal |
| TsLockAnswers.ReleaseActs | typescript/src/restart.ts:354-364 | On every run release of a held lock stops the timer and ends the stream once, a second call changes nothing, and without a lock there is nothing to release |
| TsLockAnswers.ReleasedExactly | typescript/src/restart.ts:354-364 | A lock counts as released exactly when release was called on it |
| Debounce.AnsweredIsFree | typescript/src/restart.ts:557-566 | After every run of a watch in which all calls of next are answered, as the first one of waitForRestart is, the wait can begin |
| Debounce.Batch | typescript/src/restart.ts:575-579 | Signals, closes and aborts at one instant before any callback: the first decides the race, the later ones stay in the watch |
| Debounce.DebounceUntilQuiet | typescript/src/restart.ts:571-588 | On a watch with a change pending or not, and however changes coalesce, the loop returns normally exactly when there is a first gap that outlasts its timer after changes only, at the start of that gap plus the debounce time, and throws at the first abort or close before it, or at once if there was one |
| Debounce.QuietMeansQuiet | typescript/src/restart.ts:571-588 | A normal return means that nothing but changes came before it and that the last debounce time was silent |
| Debounce.StrictGaps | typescript/src/restart.ts:571-588 | Without ties the gap is the first longer than the debounce time, all earlier ones being shorter |
| Debounce.WaitExactly | typescript/src/restart.ts:571-588 | Ties included, in terms of gaps: the wait ends at the first gap not shorter than the debounce time (or as long with the timer first), or at the first abort or close before it |
| Lease.QuarterExactly | typescript/src/restart.ts:426-426 | For every ttl four heartbeat intervals are the whole seconds of the ttl exactly |
| Lease.WholeSecondsExactly | typescript/src/restart.ts:426-426 | The ttl is cut to whole seconds, and anything below one second is one |
| Lease.ExpiryBySilence | typescript/src/restart.ts:390-401 | The expiry is four intervals after the last heartbeat that arrived |
| Lease.LeaseContinuity | typescript/src/restart.ts:461-462 | Every heartbeat of an unbounded run is sent no later than the expiry if and only if no four in a row are lost |

## Left out

- Bech32.Encode: maps case character by character; a mapping that treats a surrogate pair as one, and the characters of such pairs, are not modelled.
- Bech32.Decode: the same; of the case mapping only `Bech32.Lawful` is assumed.
- PairDetection.TwoChangesExactly: three and four changes outside a window of six are not covered; that BIP 173's code finds any four within 89 symbols rests on an exhaustive search.
- AgeFile.RecipientOpens: assumes the inverse and commuting laws of the primitives; their secrecy, the randomness and the rejection of weak points are not part of this model.
- AgeFile.EncryptArmored: takes its random values as arguments.
- Recipient.RecipientStringOpens: covers the data key only; the SOPS leaf, the MAC over the plaintext and the YAML document are not part of this model.
- JsonRoundTrip.RoundTrip: strings are their UTF-8 bytes; the conversion from and to UTF-16, which also replaces lone surrogates and drops a leading byte order mark, is not part of this model.
- JsonRoundTrip.StructDecodes: keeps entries in the order of insertion; JavaScript lists integer-like keys first, which changes the order on the wire but not the map.
- StructCodec.ReadStruct: on wires no encoder here writes, a `__proto__` entry is dropped; that such an entry can replace the prototype of the object is not modelled.
- StructCodec.BinaryWriter.Join: the reader and writer library is not in the repository; it is modelled from the Protocol Buffers Encoding specification, without the transient array chunks and with buffers as values.
- Timestamp.PrintedOrder: takes the second count as an argument; the system clock is not part of this model.
- GoLockRuns.ReceiveLoopEnds: says that the loop can end by its own steps; that a scheduler lets it run is not modelled.
- GoLock.RunKeeps: starts after the initial request was sent; the checks of the ttl and the failure to send come before any concurrency.
- GoLock.StepKeeps: the functions of the stream answer anything at any time; the order of heartbeat and CloseSend on a gRPC stream is not modelled.
- PyLock.RunKeeps: starts after the initial request was sent, and is without the queue-backed request iterator of the gRPC adapter.
- TsLock.RunKeeps: timers fire at any time while set, but not before settled promises have run on, and a stream fails at any time; the grpc-js stream below the adapter is not part of this model, nor are listeners of the lost event.
- WatchLoop.RunWatchLoop: errors are one event whatever their cause; the gRPC stream and its cancellation are not part of this model.
- Debounce.DebounceUntilQuiet: ideal time, in which a callback runs at the instant of its event.
- Lease.LeaseContinuity: instant delivery and the server's documented expiry rule; the server and its lock queue are not in the repository.
- The debounce loops of Go and Python and the Python watch loop: the same machines with a channel or an event in place of the watch object.
- `csharp/Lock.cs`, `csharp/Watch.cs`, `rust/src/restart.rs`: the same automata once more.
- SOPS leaves, YAML, JSON Patch, transports, certificates, SPIFFE identities and their retries, the JSON conversion half of the generated code: short branches, library code or foreign input and output.
