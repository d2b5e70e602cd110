# timbre-lib, modelled and proved in Dafny

`timbre-lib` reads, rewrites and morphs the patch dumps of five synthesizers,
harvests preset sheets from them, and drives a headless engine over JSON-RPC.
This project models that core and proves what it is for: that the decoders and
writers are inverse to each other where they should be, that independently
written parsers agree, that every emitted morph step is well-formed and reads
back as the step it claims, that the harvest neither loses nor merges patches,
and that the client's protocol is safe under every interleaving.

`dafny verify dfyconfig.toml` checks everything. Bytes are integers 0..255,
buffers the sources write in place are arrays, dictionaries are maps visited in
arbitrary order wherever the sources iterate them unsorted, and the sources'
exceptions are error values. Each loop of the sources is a method proved
against a specification; the theorems are lemmas about those specifications. The
`Places` modules state the specifications' results without them: absolute byte
positions and literal constants, so that a step is followed from the values of its
two parents to one byte of its dump (`StepByte`).

| files | what they model |
|---|---|
| `Bytes`, `Text`, `Ordering`, `Dictionaries` | Python slices, searches, decimal and latin-1 text, `sorted()`, dictionaries filled in order |
| `Smf`, `XeniaSysex`, `XeniaSysexFile`, `SmfBytes` | Standard MIDI Files 1.0 as events, their serializer, `iter_sysex`, and inputs no serializer produces |
| `VirusSmf`, `VirusFxWalk`, `VirusPatchWalk`, `VirusSmfAgree`, `VirusSmfLosses` | the two Virus walkers, their agreement, and the files on which they lose messages |
| `Morph`, `Distance` | interpolation with two roundings, one chain step; preset distance and its metric laws |
| `VirusDump`, `VirusLaws`, `VirusCorpus`, `VirusContainers`, `VirusMorphs`, `VirusPlaces`, `VirusFinds` | the Virus writer, its lens laws, the corpus index over container files, its morph steps, and which bytes all of these touch |
| `NordSyx`, `NordDump`, `NordWriter`, `NordLaws`, `NordReader`, `NordMorphs`, `NordPlaces` | Nord Lead 2x scanning, nibbles, file writer and reader, morph steps, byte positions |
| `XeniaDump`, `XeniaBank`, `XeniaMorphs`, `XeniaPlaces` | Microwave dumps, banks, parent search, injectable steps, byte positions |
| `VavraDump`, `VavraParent`, `VavraMorphs`, `VavraPlaces` | microQ dumps, the search for a preset's file, morph steps, byte positions |
| `SysexBlocks`, `Microwave`, `MicrowaveBanks` | bank sidecars and their two key spaces, raw and in Standard MIDI Files |
| `Je8086`, `Je8086Params`, `Je8086Explode`, `Je8086Files`, `Je8086Places` | Roland DT1 pages, units, parameters, the explode round trip, and what the bytes mean |
| `Harvest`, `HarvestSheet`, `OffsetMap` | clustering, the sheet preset by preset, and renaming |
| `McpProtocol`, `McpExports`, `McpClient`, `SweepNames` | the JSON-RPC client, the sweep's exports and its output names |

Where a documented promise is wider than the code, the code is modelled and the
exact boundary is proved:

* The Virus writer always recomputes the checksum, so writing nothing is the
  identity only on a checksum-valid base (`GetPut`), and a name can be written
  only if its last vocabulary slot is on a page of the model (`WritableNames`): a
  byte-verified chain is emitted exactly when no step changes a key without one
  (`EmissionExactly`, `VerifiedChainFails`).
* The Nord writer keeps the container's high nibbles while the decoder shifts
  the whole second byte: a value reads back only from a container byte below 16
  (`GetSet`), and a file loses a dump exactly when a container byte of F0 or more
  is given the low nibble 7 (`SpansKept`, `OverrideBreaksSpan`).
* The Nord search loads dumps without an F0, which the writer never rewrites: the
  two take the same dump under an exact condition on the file
  (`ReaderSeesFirstDump`), and where they do not a step is written without an
  error and loads back as its parent (`LoadedStepIsLost`, `HeadlessStepIsLost`).
* The Virus corpus index finds a MIDI file's dump by its payload: its hits are what
  they claim exactly when no file hides a B/C dump behind a TI dump that begins
  with it (`CorpusExactly`, `ShadowedFile`).
* A Xenia name that encodes to an F7 makes its dump disappear from a raw bank
  (`BankRoundTrip`, `RowCount`).
* Both Virus walkers size program change and channel pressure by comparing the
  whole status byte, which is wrong exactly on channels 1..15 (`SafeStatuses`),
  and `parse_stdmidi` ignores the header length, so that behind a header
  longer than six bytes it finds nothing, unless the extra bytes spell a track
  header (`PatchesFound`).
* The offset map's injectivity alone does not keep renamed keys apart: no mapped
  name may be the raw key of an unmapped offset (`ApartExactly`,
  `LoadedMapsKeepApart`).
* The preset distance obeys the triangle inequality over any key sets as long as
  the middle preset stores no null under a key the outer two lack
  (`DistanceIsMetric`); with such nulls it holds on all presets over three key
  sets exactly when the outer two have enough keys together (`TriangleExactly`).
* An export is credited with its own notification exactly when no earlier one
  that the engine completed lost its call or its wait (`OwnNoticeExactly`), and a
  call made after the reader has died hangs until its own timeout
  (`LateCallsHang`).
* A Vavra or Nord chain fails outright when B has a key A lacks
  (`OverridesSucceed`, `NullStopsStep`), and a Vavra step with two keys of one
  byte holds them both exactly when they agree (`StepExactly`, `SharedByteFails`),
  though the search accepts a file for two that do not (`LaterKeyWins`).
* Roland units survive exploding exactly when their page values are below 2^21
  (`ExplodeRoundTrip`).
* A Microwave sidecar and the bank loader read a name alike exactly when its field
  is printable and not blank (`NamesExactly`), and a stray F0 in a MIDI file hides
  a dump from the sidecar alone (`StrayF0LosesPatch`).

## Model

| member | source | states |
|---|---|---|
| XeniaSysex.ReadVarlenLoop | timbre-lib/xenia_dump.py:280-288 | reads at most four bytes of a variable-length quantity; overlong and truncated ones are told apart |
| XeniaSysex.SkipDeltaLoop | timbre-lib/xenia_dump.py:318-322 | skips a delta time to the byte after its last one, failing at the end of the data |
| XeniaSysex.RawLoop | timbre-lib/xenia_dump.py:294-305 | the F0..F7 runs of a raw stream, left to right |
| XeniaSysex.TakePacket | timbre-lib/xenia_dump.py:326-343 | one F0 or F7 packet: starts, continues or completes a message, or passes unchanged |
| XeniaSysex.TakeEvent | timbre-lib/xenia_dump.py:317-356 | one track event of any kind moves the cursor and the open fragment as the walk says |
| XeniaSysex.TrackLoop | timbre-lib/xenia_dump.py:312-358 | the messages of one track chunk |
| XeniaSysex.TracksLoop | timbre-lib/xenia_dump.py:309-360 | the messages of the declared tracks, stopping at the first chunk that is not one |
| XeniaSysex.IterSysex | timbre-lib/xenia_dump.py:291-360 | the whole of iter_sysex, raw stream or Standard MIDI File, errors included |
| XeniaSysexFile.ParseUndoesPrint | timbre-lib/xenia_dump.py:291-360 | for every serialized Standard MIDI File (packets, continuations, escapes, metas, all channels, running status, long headers) iter_sysex terminates and returns exactly the reassembled messages in order |
| XeniaSysexFile.RawSkips | timbre-lib/xenia_dump.py:296-305 | bytes without an F0 in front of a raw stream do not change what the scan returns |
| XeniaSysexFile.RawTakes | timbre-lib/xenia_dump.py:296-305 | a framed message in front of anything is the next message of the raw scan |
| XeniaSysexFile.FileAgreesWithWire | timbre-lib/xenia_dump.py:291-360 | parsing a file and scanning the bytes its events put on the wire give the same messages |
| SmfBytes.FileInBytes | timbre-lib/xenia_dump.py:291-360 | one two-track file written out in bytes, and the one message iter_sysex finds in it |
| SmfBytes.BrokenPackets | timbre-lib/xenia_dump.py:326-343 | a message interrupted by another is returned unfinished, behind it or in front of it as it is complete or not; a continuation is joined; one without a message is dropped |
| SmfBytes.LongQuantities | timbre-lib/xenia_dump.py:280-288 | four continuing bytes raise DumpError, a quantity the data cuts off raises IndexError |
| VirusSmf.ReadVlqLoop | timbre-lib/virus_fx_pages.py:205-213 | the unbounded variable-length quantity of the Virus walkers, or an error at the end of the data |
| VirusSmf.FxTrackLoop | timbre-lib/virus_fx_pages.py:228-258 | one track of smf_sysex_messages |
| VirusSmf.SmfSysexMessages | timbre-lib/virus_fx_pages.py:216-258 | smf_sysex_messages: the F0 packets of all tracks, from the end of a header of any length |
| VirusSmf.IterDumpsLoop | timbre-lib/virus_fx_pages.py:283-313 | iter_dumps: the single fields of every message that has one of the two dump lengths |
| VirusSmf.PatchTrackLoop | timbre-lib/virus_patch.py:443-490 | one track of parse_stdmidi, error patches included |
| VirusSmf.ParseStdmidiLoop | timbre-lib/virus_patch.py:427-500 | parse_stdmidi: the patches and error patches of a file, tracks from byte 14 on |
| VirusSmfAgree.FxFindsAllMessages | timbre-lib/virus_fx_pages.py:216-258 | on tame files with a header of any length the walker returns exactly the sysex messages |
| VirusSmfAgree.PatchesFound | timbre-lib/virus_patch.py:427-490 | on tame files parse_stdmidi finds every message behind a six-byte header and none behind a longer one whose extra bytes do not spell MTrk, one to three extra bytes included |
| VirusSmfAgree.BothFindAllMessages | timbre-lib/virus_patch.py:427-490 | both walkers find exactly the same messages in order if and only if the header has six bytes or the file holds no message |
| VirusSmfAgree.WalkersAgree | timbre-lib/virus_fx_pages.py:261-313 | the payloads of iter_dumps cut to 256 bytes are, in order, the data of the error-free patches of parse_stdmidi, if and only if the header has six bytes or the file holds no single dump |
| VirusSmfAgree.ThreeWalkersAgree | timbre-lib/xenia_dump.py:291-360 | on tame files, whatever the header length, iter_sysex returns the same messages as smf_sysex_messages if and only if no event repeats the F0 in its data |
| VirusSmfLosses.OtherChannelsLoseMessages | timbre-lib/virus_patch.py:476-489 | program change and channel pressure on channels 1..15 make both Virus walkers lose a message iter_sysex returns: one file per status byte |
| VirusSmfLosses.SafeStatuses | timbre-lib/virus_fx_pages.py:248-255 | a channel status is safe for each walker in every file if and only if it is not a two-byte message on channels 1..15 |
| SmfBytes.RunningStatus | timbre-lib/virus_fx_pages.py:228-258 | what each of the three readers does with the running status over F0 and F7 packets and meta events |
| SmfBytes.NoRunningStatus | timbre-lib/virus_patch.py:443-490 | a data byte without a running status: TypeError, end of the track, or a bad patch |
| Ordering.SortedList | timbre-lib/morph_presets.py:197-199 | sorted() of a set: its elements once each, in order, and the only such list |
| Ordering.SortIsStable | timbre-lib/virus_dump.py:361-362 | sorting keeps the order of elements that sort equal |
| Ordering.StringLeMeans | timbre-lib/morph_presets.py:197-199 | strings sort by the first place where they differ, a front before its continuations |
| Text.FieldReadsBack | timbre-lib/xenia_dump.py:108-115 | a name written to a fixed field and read back loses only what the field cuts and trailing space |
| Text.PaddedIsInjective | timbre-lib/je8086_patch.py:799-808 | numbers printed with %d, %02d or %03d differ when the numbers differ |
| Morph.RoundsToNearest | timbre-lib/morph_presets.py:211-214 | the rounding goes to the nearest integer and to the even one on a tie |
| Morph.RoundIsUnique | timbre-lib/morph_presets.py:211-214 | those two facts leave one result |
| Morph.Between | timbre-lib/morph_presets.py:206-214 | an interpolated value lies between its integer endpoints, after one rounding and after two |
| Morph.NearLine | timbre-lib/morph_presets.py:206-214 | the tenths are within 0.05 of the exact line and the written integer within 0.55; StepHolds spells the line out |
| Morph.Ladder | timbre-lib/morph_presets.py:206-214 | it is monotone in the step, in tenths and in written integers |
| Morph.Reversal | timbre-lib/morph_presets.py:206-214 | it equals the value at step n + 1 - k of the reversed chain |
| Morph.BuildIntermediate | timbre-lib/morph_presets.py:183-232 | the loop builds the preset that StepHolds, MappedKeys and ListsAreOrdered describe key by key |
| Morph.StepHolds | timbre-lib/morph_presets.py:183-232 | a key is interpolated if and only if it is continuous and its two values differ, neither null, and then holds the tenths nearest to va + (vb - va) * step / (steps + 1), even on a tie; otherwise it is A's own, and jumps if and only if it is discrete and differs |
| Morph.OneTenth | timbre-lib/morph_presets.py:206-214 | those facts leave one value |
| Morph.WrittenInteger | timbre-lib/morph_presets.py:206-214 | the integer a writer writes is the one nearest to the tenths, even on a tie |
| Morph.StepIsWritten | timbre-lib/morph_presets.py:183-232 | so for every key A holds the written integer follows from A, B and the place of the step alone |
| Morph.MappedKeys | timbre-lib/morph_presets.py:183-232 | with an index map the keys it lacks are listed and left out and the others carry their index; without one every key is live |
| Morph.ListsAreOrdered | timbre-lib/morph_presets.py:197-199 | jumps and unmapped keys are in order, each once |
| Morph.KeysPartition | timbre-lib/morph_presets.py:197-228 | interpolated, jumped and copied keys partition the live keys, the same way at every step |
| Morph.NullsAreParentNulls | timbre-lib/morph_presets.py:203-228 | a null in a step is a null of parent A |
| Morph.StepsAreSevenBit | timbre-lib/morph_presets.py:206-228 | the written integer of a non-null key is 7-bit, A's own unless the key is interpolated |
| Morph.ChainReversal | timbre-lib/morph_presets.py:243-254 | the reversed chain meets the same interpolated values |
| Distance.DistanceLaws | timbre-lib/morph_presets.py:161-174 | over any key sets the mean distance is symmetric, at most 1, and zero exactly when no key tells the presets apart |
| Distance.DistanceIsMetric | timbre-lib/morph_presets.py:161-174 | over any key sets the triangle inequality holds when the middle preset stores no null under a key the outer two lack: on all presets without nulls, and on all presets over one key set |
| Distance.TriangleExactly | timbre-lib/morph_presets.py:170-174 | for three key sets the triangle inequality holds on all 7-bit-or-null presets if and only if the outer two have at least as many keys together as either has with the middle one |
| Distance.OneKeyApart | timbre-lib/morph_presets.py:161-174 | presets of one key are apart by the difference of its values over 127, or by 1 where one has none |
| Distance.DistanceSums | timbre-lib/morph_presets.py:161-174 | taking a key away takes its gap away: the distance is the mean of the gaps over the union of the keys |
| Distance.NoDistance | timbre-lib/morph_presets.py:170-174 | presets without keys, and only those, divide by zero |
| VirusDump.DumpModel | timbre-lib/virus_dump.py:111-129 | accepts exactly framed dumps of the two lengths |
| VirusDump.NameSlots | timbre-lib/virus_dump.py:148-154 | each name maps to its last slot |
| VirusDump.DecodePayload | timbre-lib/virus_fx_pages.py:333-352 | the byte of every vocabulary slot on the model's pages; SlotsHold says where it stands |
| VirusDump.NameValues | timbre-lib/virus_fx_pages.py:363-375 | the naming loop: each kept name reads its last on-page slot |
| VirusDump.DecodeDump | timbre-lib/virus_dump.py:163-179 | every name reads the byte of its last slot on a model page, or the framing error; DecodedFrom says where it stands |
| VirusDump.BuildDump | timbre-lib/virus_dump.py:235-263 | the writer in its payload buffer: overrides in name order, header and tail kept, checksum recomputed, every error; WrittenAt and KeptAt say which bytes |
| VirusDump.InverseIsLast | timbre-lib/virus_dump.py:148-154 | the slot of a name is the last one that carries it, and every name has one |
| VirusPlaces.SlotsHold | timbre-lib/virus_fx_pages.py:333-352 | the decoded slots are those on pages 112..113 or 112..115, each the dump's byte at 9 + 128 * (page - 112) + index |
| VirusPlaces.DecodedFrom | timbre-lib/virus_dump.py:163-179 | a framed dump decodes exactly the names with a slot on its pages, each from the byte at 9 + 128 * (page - 112) + index of its last such slot |
| VirusPlaces.WrittenAt | timbre-lib/virus_dump.py:235-263 | 7-bit overrides with their last slots on pages are accepted and stand at 9 + 128 * (page - 112) + index |
| VirusPlaces.KeptAt | timbre-lib/virus_dump.py:235-263 | every other byte but the checksum is the base's |
| VirusPlaces.SummedAt | timbre-lib/virus_dump.py:254-263 | every built dump has the fixed frame bytes and, before the F7, the 7-bit sum from the device id to the end of the payload |
| VirusPlaces.OneWrittenAt | timbre-lib/virus_dump.py:243-258 | any single accepted override stands at its last slot, counted from the payload's end below page 112, and nothing else changes but the checksum |
| VirusPlaces.FirstRefusal | timbre-lib/virus_dump.py:243-258 | the error is that of the first name in code-point order that is out of range, unknown or off the payload |
| VirusLaws.BuildIsValid | timbre-lib/virus_dump.py:235-263 | a built dump has its base's model, passes verify_checksum, and differs from the base only in payload and checksum |
| VirusFinds.BuiltDispatches | timbre-lib/virus_patch.py:343-398 | the patch parser reads every built dump back with its own bytes and a right checksum |
| VirusLaws.PutGet | timbre-lib/virus_dump.py:235-263 | for overrides on model pages the decoder reads the overrides, and the base on every other name |
| VirusLaws.PutPut | timbre-lib/virus_dump.py:235-263 | of two builds in a row the second wins, name by name |
| VirusLaws.DisjointBuildsCommute | timbre-lib/virus_dump.py:235-263 | builds over disjoint names commute |
| VirusLaws.GetPut | timbre-lib/virus_dump.py:235-263 | writing back what was read, or nothing, is the identity if and only if the base's checksum was right |
| VirusLaws.BuildFails | timbre-lib/virus_dump.py:238-258 | the writer refuses exactly an unframed base, a value outside 0..127, an unknown name, or a slot outside the payload |
| VirusLaws.WritableNames | timbre-lib/virus_dump.py:148-160 | a name reads back whatever is written if and only if its last slot is on a page of the model |
| VirusCorpus.IndexCorpus | timbre-lib/virus_dump.py:302-364 | the kept dumps by signature, each list ascending by file and index, with hits of one file and index in walk order; dumps with a wrong frame or checksum are dropped |
| VirusFinds.SinglesAre | timbre-lib/virus_fx_pages.py:261-281 | which messages the three readers take for a single dump, and from which bytes |
| VirusFinds.KeptExactly | timbre-lib/virus_dump.py:311-345 | an entry is kept if and only if its payload has 256 or 512 bytes and its raw bytes are a framed dump with the right sum at that length's checksum byte |
| VirusFinds.FxParamsAre | timbre-lib/virus_fx_pages.py:363-375 | the effect parameters of a payload, name by name, at 128 * (page - 112) + index |
| VirusFinds.LookupExactly | timbre-lib/virus_dump.py:302-395 | the index returns for a preset exactly the kept dumps whose effect parameters are its values |
| VirusContainers.IterEntries | timbre-lib/virus_fx_pages.py:283-313 | the single dumps of one file of any container format, each with the raw bytes found for it |
| VirusFinds.BankGrows | timbre-lib/virus_fx_pages.py:296-313 | bank files are cut into chunks of 267 or 524 bytes, numbered from the front |
| VirusContainers.DumpBytes | timbre-lib/virus_fx_pages.py:396-412 | the first message of a Standard MIDI File that carries the payload |
| VirusContainers.IndexFiles | timbre-lib/virus_dump.py:302-364 | the index of a whole corpus, file by file |
| VirusCorpus.NoByteMismatches | timbre-lib/virus_fx_pages.py:355-360 | writing a decoded byte back never changes the payload, so no dump is dropped for a byte mismatch |
| VirusCorpus.ResolveBase | timbre-lib/virus_dump.py:367-375 | the first hit of one generation |
| VirusCorpus.ResolvePreferred | timbre-lib/virus_dump.py:378-395 | the first B/C hit when there is one, else the first TI hit, else an error; a preset with a null has no hit |
| VirusContainers.FileExactly | timbre-lib/virus_fx_pages.py:396-412 | the kept dumps of a file all have their own generation if and only if no B/C message of it is shadowed: behind no framed TI message that begins with its payload and has its checksum at byte 265 |
| VirusContainers.CorpusExactly | timbre-lib/virus_dump.py:302-364 | every hit of the index is framed, passes its checksum and decodes to the parameters it is kept under if and only if no file of the corpus has a shadowed message |
| VirusContainers.ResolvedIsVerified | timbre-lib/virus_dump.py:302-395 | over such a corpus whatever the index returns for a preset byte-verifies it |
| VirusContainers.ShadowedFile | timbre-lib/virus_fx_pages.py:396-412 | a Standard MIDI File of two dumps: the index keeps a B/C hit on the TI dump, which verifies nothing |
| VirusMorphs.EmitStep | timbre-lib/virus_dump.py:433-449 | the dump of one step, vocabulary and decoding checks included |
| VirusMorphs.EmitPair | timbre-lib/virus_dump.py:424-463 | one dump per step exactly when every step succeeds, else the error of a step |
| VirusMorphs.UniqueNamesAreOnPages | timbre-lib/virus_dump.py:418-438 | a byte-verified preset can be written when no two slots share a name |
| VirusMorphs.EmissionIsFaithful | timbre-lib/virus_dump.py:418-459 | over a byte-verified A, a step whose changed keys have their last slots on model pages is framed, checksum-valid and decodes to the rounded step on A's keys and to the base elsewhere |
| VirusPlaces.StepByte | timbre-lib/virus_dump.py:418-459 | a written step has at 9 + 128 * (page - 112) + index of a key's last slot the integer that the step's place between A and B gives |
| VirusMorphs.StepWrites | timbre-lib/virus_dump.py:433-449 | for any vocabulary a step of decodable 7-bit values is written if and only if the last slot of every changed name lies inside the payload, negative offsets counted from its end |
| VirusMorphs.EmissionExactly | timbre-lib/virus_dump.py:433-449 | a step over a byte-verified A is written if and only if every changed key has its last slot on a model page |
| VirusMorphs.PairExactly | timbre-lib/virus_dump.py:418-459 | the steps of a pair are all written if and only if none of them changes a key whose last slot is off the pages |
| VirusMorphs.VerifiedPairSucceeds | timbre-lib/virus_dump.py:418-459 | a verified pair whose moving keys have their last slots on model pages raises nothing |
| VirusMorphs.VerifiedChainFails | timbre-lib/virus_dump.py:235-263 | a byte-verified B/C chain whose name stands again on page 116: the step raises IndexError on that name |
| NordSyx.ScanSyxSpans | timbre-lib/nord_dump.py:117-131 | the inclusive spans of strictly framed dumps |
| NordSyx.SplitDumps | timbre-lib/nl2x_patch.py:141-164 | the decoder's payloads, with and without F0 anchor |
| NordSyx.ScannersAgree | timbre-lib/nl2x_patch.py:141-164 | on concatenated dumps both scanners find exactly the dumps in order |
| NordDump.Classify | timbre-lib/nl2x_patch.py:216-229 | accepts exactly the six payload lengths behind a Clavia header, and tells single from multi and named from unnamed |
| NordDump.SetParam | timbre-lib/nord_dump.py:193-203 | writes both nibbles in place, keeps both high nibbles, and reports value and index errors in that order |
| NordDump.CollectOverrides | timbre-lib/nord_dump.py:216-227 | the plan and the bit operations, whatever the dictionary order; an unknown name is the only refusal |
| NordDump.ResolveOverrides | timbre-lib/nord_dump.py:210-231 | the same with the bit values checked; an unknown name wins over a bad bit |
| NordDump.BitsForgetOrder | timbre-lib/nord_dump.py:259-263 | the bit operations give one result in every order and change only bits 0, 1 and 4 |
| NordWriter.SetAll | timbre-lib/nord_dump.py:257-258 | the plan written in index order is the plan written byte by byte |
| NordWriter.ApplyOps | timbre-lib/nord_dump.py:259-263 | the read-modify-write of byte 52 |
| NordWriter.RewriteDump | timbre-lib/nord_dump.py:256-263 | the dump after all overrides, or the error the code raises |
| NordWriter.WritePatch | timbre-lib/nord_dump.py:234-280 | the whole file with its first span rewritten, every refusal included |
| NordLaws.GetSet | timbre-lib/nord_dump.py:188-207 | what is read is what was set if and only if the high nibble of the second container byte was zero |
| NordLaws.RewrittenDecodes | timbre-lib/nord_dump.py:256-263 | each parameter decodes to its override, bits of byte 52 applied last |
| NordLaws.RewrittenFrame | timbre-lib/nord_dump.py:256-263 | only overridden nibble pairs differ, and no high nibble changes |
| NordLaws.RewriteSucceeds | timbre-lib/nord_dump.py:199-231 | the overrides are accepted if and only if names are known, bits are 0 or 1, bytes are 0..127, and byte 52 is small enough for bit operations |
| NordLaws.WriteRefinesDecoder | timbre-lib/nl2x_patch.py:247-281 | on concatenated dumps the first dump decodes to the old parameters updated by the overrides, and length, spans and all other dumps are kept if and only if no container byte turns into F7 |
| NordLaws.RewrittenByte | timbre-lib/nord_dump.py:193-207 | every byte keeps its high nibble and takes its half of the value the overrides give its parameter |
| NordPlaces.ParameterAt | timbre-lib/nord_dump.py:176-191 | parameter i is read from the low nibble at 6 + 2 * i and the byte behind it |
| NordPlaces.NamedAt | timbre-lib/nord_dump.py:193-207 | a named override stands in the low nibbles of its two bytes, high nibbles kept |
| NordPlaces.BitsAt | timbre-lib/nord_dump.py:259-263 | sync, ringmod and distortion are bits 0, 1 and 4 of parameter 52, and its other bits are as before |
| NordPlaces.KeptAt | timbre-lib/nord_dump.py:256-263 | every byte that no override addresses is kept |
| NordPlaces.FirstDumpAt | timbre-lib/nord_dump.py:117-131 | the rewritten dump runs from the first F0 33 dev 04 to the first F7 behind it |
| NordPlaces.OverrideRefusals | timbre-lib/nord_dump.py:199-231 | an unknown name is refused before a bad bit, both before a value or container out of range, and nothing else is |
| NordPlaces.FileRefusals | timbre-lib/nord_dump.py:234-263 | which files are refused for their container, for holding no dump, and for the length of the first |
| NordLaws.BecomesEnd | timbre-lib/nord_dump.py:193-207 | a byte turns into F7 if and only if it is F0 or more, its parameter is overridden, and its half of the new value is 7 |
| NordLaws.SpansKept | timbre-lib/nord_dump.py:117-131 | on any raw file the write changes bytes of the first dump only, and keeps all spans if and only if no such byte is in it: read off the file and the overrides |
| NordLaws.OverrideBreaksSpan | timbre-lib/nord_dump.py:193-207 | a 139-byte dump with a container byte F0 and an override 7: the written file holds one dump of seven bytes, which no decoder accepts |
| NordReader.LoadDumps | timbre-lib/nord_dump.py:134-164 | the parameters of every piece of a raw file with a known shape |
| NordReader.ReaderSeesFirstDump | timbre-lib/nord_dump.py:134-173 | load_patch loads the dump write_patch rewrites if and only if every headless piece the reader meets before it ends before it and has no known shape |
| NordReader.WriteIsLost | timbre-lib/nord_dump.py:234-267 | when the loaded piece ends before the first strict dump, no accepted override changes what load_patch loads |
| NordMorphs.ResolveBase | timbre-lib/nord_dump.py:298-313 | the first candidate file that loads and whose loaded parameters match the preset |
| NordMorphs.EmitStep | timbre-lib/nord_dump.py:350-356 | the file of one step, with the error each branch raises |
| NordMorphs.NullStopsStep | timbre-lib/nord_dump.py:352-352 | a step fails on a null exactly when some key is null or missing in A |
| NordMorphs.StepIsWritten | timbre-lib/nord_dump.py:343-356 | over any file A was verified against through load_patch, a step is written if and only if the file is raw and its first strict dump has a known shape |
| NordMorphs.LoadedStepIsFaithful | timbre-lib/nord_dump.py:298-356 | from the loaded file to the written one: when the reader loads the rewritten dump, the step is carried, and loads back as the step unless a container byte turns into F7 |
| NordMorphs.LoadedStepIsLost | timbre-lib/nord_dump.py:298-356 | when the reader loads a piece that ends before it, every step is written without an error and loads back as A |
| NordMorphs.HeadlessStepIsLost | timbre-lib/nord_dump.py:298-356 | a file with the zero dump once without its F0 and once whole: a verified chain that wants 50 loads back as 0 |
| NordMorphs.StepIsFaithful | timbre-lib/nord_dump.py:343-356 | for an A verified against the first dump every step is written on any raw file, differs only inside that dump, decodes there to the rounded step on every key and to the base elsewhere, and keeps all spans if and only if no container byte turns into F7 |
| NordPlaces.StepByte | timbre-lib/nord_dump.py:343-356 | a written step has in the two bytes of a key the integer that the step's place between A and B gives |
| NordMorphs.ConcatStepIsFaithful | timbre-lib/nord_dump.py:343-356 | on concatenated dumps both scanners then still find every dump, the others unchanged |
| XeniaDump.ResolveOverrides | timbre-lib/xenia_dump.py:183-205 | the sorted (index, value) pairs of the overrides, or an error, whatever the dictionary order |
| XeniaDump.LastIsLargest | timbre-lib/xenia_dump.py:201-205 | in sorted order the last write to a parameter is the largest value |
| XeniaDump.DependsOnWrites | timbre-lib/xenia_dump.py:183-238 | the dump depends only on which values address which byte |
| XeniaDump.OverlayDump | timbre-lib/xenia_dump.py:229-238 | parameters, name and checksum written in the buffer |
| XeniaDump.BuildSingleDump | timbre-lib/xenia_dump.py:208-238 | header, base parameters, largest override per parameter, name field, fresh checksum, or an error |
| XeniaDump.PatchDump | timbre-lib/xenia_dump.py:258-277 | the parent's bytes with overrides, name and checksum replaced |
| XeniaPlaces.BuiltAt | timbre-lib/xenia_dump.py:129-147 | build_single_dump byte for byte (frame, parameter i at 7 + i, name at 247, sum at 263), and exactly when it refuses |
| XeniaPlaces.PatchedAt | timbre-lib/xenia_dump.py:258-277 | patch_dump byte for byte: the largest override for each parameter, the name if given, the sum, all else kept |
| XeniaBank.LoadBank | timbre-lib/xenia_dump.py:405-420 | the rows of a sysex bank, from whatever iter_sysex returns |
| XeniaBank.LoadUsbBank | timbre-lib/xenia_dump.py:388-404 | the rows of a .usb bank, failing on a bad size or a byte over 127 in a named record |
| XeniaPlaces.RowsOfMessages | timbre-lib/xenia_dump.py:405-420 | one row for every message of 265 bytes F0 3E 0E dev 10, in order: parameter i from 7 + i, name from 247 |
| XeniaPlaces.UsbRowAt | timbre-lib/xenia_dump.py:388-404 | the row, the silence or the error of one record, from its bytes |
| XeniaPlaces.UsbRecords | timbre-lib/xenia_dump.py:388-404 | records are loaded one after another, and the first error stops the load |
| XeniaBank.RowOfBuilt | timbre-lib/xenia_dump.py:372-417 | the loader reads the values written and the name up to trailing space |
| XeniaBank.BuiltChecksum | timbre-lib/xenia_dump.py:103-105 | a built dump carries the checksum of its own bytes |
| XeniaBank.FramedIffTravels | timbre-lib/xenia_dump.py:108-115 | a built dump holds a single F7 if and only if its name field holds none |
| XeniaBank.BankRoundTrip | timbre-lib/xenia_dump.py:294-305 | loading a concatenation of built dumps gives in order exactly the rows whose name field holds no F7 |
| XeniaBank.RowCount | timbre-lib/xenia_dump.py:108-115 | all rows come back if and only if every name field is free of F7 |
| XeniaMorphs.CountMatches | timbre-lib/xenia_dump.py:450-460 | counts the named values that stand in the dump; all of them exactly on a full match |
| XeniaMorphs.SearchBank | timbre-lib/xenia_dump.py:480-493 | the first verified row of one bank, else the remembered first shifted one; ParentIsExact says which those are |
| XeniaMorphs.ResolveParent | timbre-lib/xenia_dump.py:463-502 | the nested search over all bank files, with the fallback and the errors; ParentIsExact says what it returns |
| XeniaMorphs.ParentIsExact | timbre-lib/xenia_dump.py:463-502 | verified if and only if some loaded row of an example name holds every named value at its offset, and then the first such row; vocab-shifted only when none does, every bank loads, and then the first sysex row that does at offset - 2; otherwise the error |
| XeniaMorphs.WriteShifted | timbre-lib/xenia_dump.py:533-539 | the shifted branch in the dump itself: every value at its offset minus 2, checksum recomputed |
| XeniaMorphs.WriteStep | timbre-lib/xenia_dump.py:530-541 | one step, shifted or through patch_dump |
| XeniaMorphs.VerifiedWrites | timbre-lib/xenia_dump.py:258-277 | the verified branch succeeds if and only if values are 7-bit and no name addresses a name character, and writes every value at its offset |
| XeniaMorphs.ResolvedParentMatches | timbre-lib/xenia_dump.py:524-528 | the dump the search returns matches parent A in full at its shift |
| XeniaMorphs.ShiftedStepsStayInside | timbre-lib/xenia_dump.py:530-539 | every write of a vocab-shifted step lands in 7..262, and the dump differs from the base only at interpolated keys and the checksum |
| XeniaMorphs.VerifiedStepsStayInside | timbre-lib/xenia_dump.py:530-541 | a verified step can be written if and only if none of A's names addresses a name character, and differs from the base only at interpolated keys and the checksum |
| XeniaPlaces.StepByte | timbre-lib/xenia_dump.py:530-541 | a written step has at a key's shifted offset the integer that the step's place between A and B gives |
| VavraDump.WriteOverrides | timbre-lib/vavra_dump.py:131-143 | offsets in order into the dump, refusing one outside 7..369 or a value outside 0..127 |
| VavraDump.BuildDump | timbre-lib/vavra_dump.py:120-148 | the parent's bytes with overrides, name and category overlaid; the checksum byte is kept |
| VavraPlaces.WrittenBytes | timbre-lib/vavra_dump.py:120-148 | the written dump byte for byte (parameters 7..369, name at 370, category at 386, byte 390 kept), and exactly when it is refused |
| VavraPlaces.KeysStandFor | timbre-lib/vavra_dump.py:188-216 | off_N stands for byte N and moves within 24; any other key stands for its byte in the map and moves as its name says |
| VavraParent.ParamsToBytes | timbre-lib/vavra_dump.py:200-203 | the byte dictionary of a preset in its own order, the later of two keys of one byte staying, or the error of an unknown key |
| VavraParent.ResolveParent | timbre-lib/vavra_dump.py:225-277 | every candidate is compared byte by byte; an offset outside a dump raises, no candidate and no match are errors, else the first match |
| VavraParent.MatchExactly | timbre-lib/vavra_dump.py:225-230 | a candidate matches if and only if it loads and, byte by byte, the last key's value is the dump's |
| VavraParent.AllKeysExactly | timbre-lib/vavra_dump.py:225-230 | it then holds every key's value if and only if keys of one byte have one value |
| VavraDump.StepOverridesLoop | timbre-lib/vavra_dump.py:310-322 | the overrides of a step, or the error of the first bad key |
| VavraDump.EmitStep | timbre-lib/vavra_dump.py:351-355 | the dump of one step |
| VavraMorphs.OverridesSucceed | timbre-lib/vavra_dump.py:310-322 | over a file the search accepts the overrides can be collected if and only if no key is null or missing in A |
| VavraMorphs.StepExactly | timbre-lib/vavra_dump.py:310-355 | a step is written and holds every rounded value if and only if the changed keys name bytes 7..369 with 7-bit values, and keys that name one byte agree |
| VavraMorphs.StepIsFaithful | timbre-lib/vavra_dump.py:325-357 | over a file the search accepts, when moving keys name bytes 7..369 and keys of one byte have one value and move alike, each step is 392 framed bytes equal to A outside moving keys, holds every rounded step value, and keeps raw bytes within 24 of A |
| VavraPlaces.StepByte | timbre-lib/vavra_dump.py:325-357 | a written step has at a key's byte the integer that the step's place between A and B gives |
| VavraMorphs.SharedByteFails | timbre-lib/vavra_dump.py:310-322 | off_20 and a name mapped to 20, of which one moves: no dump can hold that step |
| VavraMorphs.LaterKeyWins | timbre-lib/vavra_dump.py:225-230 | the search accepts a file for a preset whose two keys of one byte differ, which no dump can hold |
| SysexBlocks.Strip | timbre-lib/microwave_patch.py:150-156 | a body without the high-bit length an SMF puts in front of it |
| SysexBlocks.Blocks | timbre-lib/microwave_patch.py:139-160 | the non-empty stripped bodies of the F0..F7 runs |
| Microwave.FindNameLoop | timbre-lib/microwave_patch.py:98-113 | the preferred name, else the first name window in the last 40 bytes |
| Microwave.NameIsFoundAt | timbre-lib/microwave_patch.py:98-113 | where a name is found: the preferred place, else the first of the last forty bytes that starts with a character and reads as a name |
| Microwave.ParseMid | timbre-lib/microwave_patch.py:163-190 | the named single dumps, and the exact number of messages of every command |
| Microwave.ParseUsb | timbre-lib/microwave_patch.py:116-136 | the named records of a bank image |
| Dictionaries.OneMoreKey | timbre-lib/harvest_matrix_presets.py:440-444 | a loop that fills a dictionary under new names keeps, of two keys with one name, the value of the later key |
| Microwave.LabelPatch | timbre-lib/harvest_matrix_presets.py:427-444 | the named parameters of one patch for any vocabulary and any order of its keys; the same in every order when no two indices share a name |
| Microwave.MidLabelsAreRowLabels | timbre-lib/harvest_matrix_presets.py:359-445 | labelling the .mid key space gives, patch by patch, the loader's names and parameters under the vocabulary |
| MicrowaveBanks.MidFileLabelsAreRowLabels | timbre-lib/microwave_patch.py:139-190 | the same for a bank that is a Standard MIDI File, which one reader scans for F0 and the other walks, when no F0 stands outside the sysex events and no F7 inside one |
| MicrowaveBanks.LongEvent | timbre-lib/microwave_patch.py:139-160 | the scan strips the length of an event of 128 bytes or more, so both readers see one message |
| MicrowaveBanks.StrayF0LosesPatch | timbre-lib/microwave_patch.py:139-160 | any dump behind a meta event that holds an F0: the loader has its row, the sidecar no patch |
| MicrowaveBanks.NamesExactly | timbre-lib/microwave_patch.py:98-113 | sidecar and loader give a dump one name and one labelling if and only if its name field is printable and not blank |
| Microwave.UsbLabelsAreMidLabels | timbre-lib/harvest_matrix_presets.py:359-445 | a .usb record and a dump of the same bytes get one name and one labelling |
| Microwave.UsbRowLabels | timbre-lib/xenia_dump.py:388-404 | a loaded .usb row carries its sidecar patch's name and labelling |
| Je8086.AddrOfPage | timbre-lib/je8086_patch.py:258-260 | the address bytes of a 7-bit address's page value are that address |
| Je8086.PageOfAddr | timbre-lib/je8086_patch.py:305-307 | the page value of a packed value's address bytes is that value |
| Je8086.AreaInverse | timbre-lib/je8086_patch.py:329-344 | every page value of an area splits into one unit and page that lead back to it |
| Je8086.UnitInverse | timbre-lib/je8086_patch.py:317-326 | every unit and page of the map comes from exactly one page value |
| Je8086Places.AddressMeans | timbre-lib/je8086_patch.py:329-344 | the area, unit and page of three address bytes |
| Je8086.ParseFile | timbre-lib/je8086_patch.py:284-302 | the DT1 messages of a file, with the retry behind a one-byte length |
| Je8086Places.Dt1Fields | timbre-lib/je8086_patch.py:263-281 | 41 dev 00 06 12, three address bytes, data and a checksum parse to those fields |
| Je8086Places.Dt1Only | timbre-lib/je8086_patch.py:263-281 | nothing else parses |
| Je8086Places.ChecksumBalances | timbre-lib/je8086_patch.py:271-280 | a checksum is right if and only if it is 7-bit and balances address and data to a multiple of 128 |
| Je8086.GroupPages | timbre-lib/je8086_patch.py:492-507 | pages grouped by unit, last page wins, units in first-seen order |
| Je8086.BuildBlob | timbre-lib/je8086_patch.py:512-519 | the pages overlaid at their 256-byte places: the blob ends with the page that reaches furthest, each byte is that of the largest page over it, and zero where none is |
| Je8086Params.DecodeParams | timbre-lib/je8086_patch.py:362-384 | the raw byte of every documented parameter the blob reaches |
| Je8086Params.DecodedByte | timbre-lib/je8086_patch.py:362-370 | a documented parameter is decoded if and only if the blob reaches its byte, one past its offset, and its value is that byte |
| Je8086.BuildEntries | timbre-lib/je8086_patch.py:492-555 | the entries of all units with a printable name, with their parameters, a performance common block having none; EntryHolds says what an entry holds |
| Je8086Places.EntryHolds | timbre-lib/je8086_patch.py:492-555 | an entry's pages hold the last data sent for them, its blob overlays its pages, its checksums are right if all its messages' are, and its name is bytes 1..16 without the blanks at the end |
| Je8086Places.UnitHasEntry | timbre-lib/je8086_patch.py:508-525 | a unit that was sent has an entry if and only if those bytes read as a name |
| Je8086Places.EntriesInOrder | timbre-lib/je8086_patch.py:496-509 | entries come in the order in which their units are first met |
| Je8086Places.ParametersOfPages | timbre-lib/je8086_patch.py:362-370 | two parameters by their page bytes, one on each page |
| Je8086Explode.WriteUnit | timbre-lib/je8086_patch.py:853-858 | one DT1 message per page, in page order |
| Je8086Places.PageMessageBytes | timbre-lib/je8086_patch.py:305-326 | the message of a page byte for byte, its address standing for the unit and page |
| Je8086Places.FileGrows | timbre-lib/je8086_patch.py:853-858 | a larger page is written behind the others |
| Je8086Explode.MessageBack | timbre-lib/je8086_patch.py:310-314 | an emitted message parses back to itself with a right checksum, in front of anything |
| Je8086Explode.ExplodeRoundTrip | timbre-lib/je8086_patch.py:811-919 | writing a unit's pages and reading the file back gives exactly that unit if and only if every page value is below 2^21; every checksum is right in any case |
| Je8086Explode.FileUnitsRoundTrip | timbre-lib/je8086_patch.py:284-302 | units read from any file survive the round trip if and only if their page values are below 2^21, as they are when its addresses are 7-bit |
| Je8086Files.RefIsInjective | timbre-lib/je8086_patch.py:799-808 | different units have different references |
| Je8086Files.ReferenceNames | timbre-lib/je8086_patch.py:799-808 | two reference names as documented |
| Je8086Files.StemsDiffer | timbre-lib/je8086_patch.py:842-851 | no two units of a bank share a file name, whatever their patch names |
| Je8086Files.Explode | timbre-lib/je8086_patch.py:834-860 | every unit that is no placeholder is written once under its own name; the collision branch is never taken |
| Je8086Files.EntriesAreOneBank | timbre-lib/je8086_patch.py:492-555 | the entries of one bank are different units, so exploding them never collides |
| Je8086Files.VerifyFile | timbre-lib/je8086_patch.py:879-915 | the verdict in the order of the checks; fine exactly on one unit with right checksums and a sidecar of the same name, hash and parameters |
| Je8086Files.ExplodedVerifies | timbre-lib/je8086_patch.py:879-915 | every exploded file passes the check against the sidecar written beside it |
| Je8086Files.OnlyOwnSidecar | timbre-lib/je8086_patch.py:616-640 | no other sidecar passes, blanks around the name aside |
| Harvest.Cluster | timbre-lib/harvest_matrix_presets.py:796-817 | the deduplicated pairs, and for every configuration its patches once each |
| Harvest.NamePresets | timbre-lib/harvest_matrix_presets.py:822-842 | the kept clusters named in order, repeated names numbered |
| Harvest.HarvestEngine | timbre-lib/harvest_matrix_presets.py:791-855 | the sheet, as a function of the set of deduplicated pairs alone |
| HarvestSheet.SheetPreset | timbre-lib/harvest_matrix_presets.py:822-842 | each preset: id and role of the engine, the number of patches scanned with its parameters, the five smallest of their names, and the description numbered from its second use on |
| HarvestSheet.SheetIsOrdered | timbre-lib/harvest_matrix_presets.py:819-822 | presets are ordered by size, then by id, and a configuration that was scanned is left out only of a full sheet, behind all of it |
| Harvest.OrderIsForgotten | timbre-lib/harvest_matrix_presets.py:796-842 | permuting or repeating the patches scanned leaves the sheet unchanged |
| Harvest.SizesAreConserved | timbre-lib/harvest_matrix_presets.py:819-855 | cluster sizes sum to patchCount, presets carry their sizes, and no dropped cluster is larger than a kept one |
| Harvest.SameDescriptionsAreNumbered | timbre-lib/harvest_matrix_presets.py:823-831 | clusters that describe themselves alike still get different names |
| OffsetMap.LoadOffsetMap | timbre-lib/harvest_matrix_presets.py:268-295 | accepts exactly digit keys, non-empty names and no name twice |
| OffsetMap.ApplyOffsetMap | timbre-lib/harvest_matrix_presets.py:487-501 | the keys renamed in dictionary order, the later of two colliding ones staying; every value under its own new name where keys stay apart; unchanged without a map |
| OffsetMap.ApartExactly | timbre-lib/harvest_matrix_presets.py:487-501 | the renaming is injective on a key set if and only if the map is, and no mapped name is the raw key of an unmapped offset |
| OffsetMap.RenamingIsInjective | timbre-lib/harvest_matrix_presets.py:487-501 | on keys that stay apart no two configurations merge |
| OffsetMap.CollisionsMerge | timbre-lib/harvest_matrix_presets.py:487-501 | where two keys get one name, two configurations do merge |
| OffsetMap.LoadedMapsKeepApart | timbre-lib/harvest_matrix_presets.py:268-295 | under a strictly loaded map different configurations stay different if and only if no name is the raw key of an unmapped offset in use |
| OffsetMap.ClustersSurvive | timbre-lib/harvest_matrix_presets.py:806-817 | after the renaming every cluster holds the same patches, every cluster comes from one before, and as many patches are counted |
| OffsetMap.LoadedMapsKeepClusters | timbre-lib/harvest_matrix_presets.py:806-817 | so under a strictly loaded map without such a name every cluster survives |
| McpProtocol.RunIsConsistent | timbre-lib/sweep_dx7_patches.py:255-311 | in every run each waiting future is pending under its own id |
| McpProtocol.IdsAreNeverReused | timbre-lib/sweep_dx7_patches.py:296-302 | later calls send larger ids, in every interleaving |
| McpProtocol.SettledOnce | timbre-lib/sweep_dx7_patches.py:283-294 | a future that is done never changes again |
| McpProtocol.AnsweredByOwnId | timbre-lib/sweep_dx7_patches.py:282-285 | an answer comes from a reply with the call's own id, received while the call was waiting |
| McpProtocol.NothingStaysOpen | timbre-lib/sweep_dx7_patches.py:288-294 | when the reader ends, by end of output, a fatal line or close, no earlier future stays open |
| McpProtocol.ReadingUntil | timbre-lib/sweep_dx7_patches.py:265-294 | the reader reads until its output ends, a line breaks it or it is closed |
| McpProtocol.ReplyAnswers | timbre-lib/sweep_dx7_patches.py:282-285 | a reply with the call's id, received while the reader reads and the call waits, is the call's outcome for good |
| McpProtocol.TimeoutEnds | timbre-lib/sweep_dx7_patches.py:308-308 | so is a timeout of a waiting call |
| McpProtocol.FirstDecides | timbre-lib/sweep_dx7_patches.py:265-311 | a call's outcome is that of the first of its timeout, its own reply and the reader's end to come after it; it waits while none has come |
| McpProtocol.LateCallsHang | timbre-lib/sweep_dx7_patches.py:296-311 | a call made after the reader has ended is never answered; only its timeout ends it |
| McpProtocol.QueueIsFifo | timbre-lib/sweep_dx7_patches.py:286-287 | what was taken followed by what is queued is exactly what arrived |
| McpProtocol.WaitsFollowArrivals | timbre-lib/sweep_dx7_patches.py:332-346 | successful waits hand out their topic's notifications one by one in order of arrival, timeouts or not |
| McpProtocol.WaitsSucceedExactly | timbre-lib/sweep_dx7_patches.py:332-346 | all waits that ended returned messages if and only if none timed out while open and none took a malformed notification |
| McpProtocol.KthWaitGetsKthNotice | timbre-lib/sweep_dx7_patches.py:332-346 | in such runs the k-th wait returns the k-th notification of its topic |
| McpProtocol.TimeoutShiftsWaits | timbre-lib/sweep_dx7_patches.py:332-346 | a wait that times out leaves its notification to the next wait |
| McpExports.CreditIsCounted | timbre-lib/sweep_dx7_patches.py:753-758 | in every run an export is credited with a completed export not after it, the one with as many completed exports before it as it has credited ones |
| McpExports.OwnNoticeExactly | timbre-lib/sweep_dx7_patches.py:752-773 | an export is credited with its own notification if and only if every earlier export the engine completed was credited: no earlier call or wait was abandoned |
| McpExports.OneExport | timbre-lib/sweep_dx7_patches.py:752-773 | call, reply, completion and wait credit an export with its own notification and leave the session ready for the next |
| McpExports.LostCallShiftsWaits | timbre-lib/sweep_dx7_patches.py:752-758 | an export call that times out while its export goes on: no wait times out, and the second export gets the first one's notification |
| McpClient.Client.constructor | timbre-lib/sweep_dx7_patches.py:255-261 | a fresh client is the initial state |
| McpClient.Client.Call | timbre-lib/sweep_dx7_patches.py:296-302 | a fresh id and a fresh pending future |
| McpClient.Client.OnLine | timbre-lib/sweep_dx7_patches.py:272-289 | one line of the reader is one step, or ends it; ReplyAnswers and FirstDecides say what the step does to a call |
| McpClient.Client.FailPending | timbre-lib/sweep_dx7_patches.py:290-294 | the finally fails every pending future that is not done, in any order |
| McpClient.Client.Reader | timbre-lib/sweep_dx7_patches.py:269-294 | the reader over the engine's output up to its end |
| McpClient.Client.Expire | timbre-lib/sweep_dx7_patches.py:308-308 | a timeout cancels a future that is not done |
| McpClient.Client.Close | timbre-lib/sweep_dx7_patches.py:348-354 | closing runs the reader's finally once |
| McpClient.Client.WaitNotification | timbre-lib/sweep_dx7_patches.py:332-346 | the wait over any interleaving of its own turns and arriving lines, up to its deadline |
| McpClient.WaitTakesFirst | timbre-lib/sweep_dx7_patches.py:332-346 | it ends once: with the first notification of its topic, all earlier ones thrown away, with a crash on a malformed one, or with a timeout |
| McpClient.WaitIsARun | timbre-lib/sweep_dx7_patches.py:332-346 | a wait is a run of the protocol |
| McpClient.ReaderIsARun | timbre-lib/sweep_dx7_patches.py:269-294 | the reader task is a run of the protocol |
| SweepNames.FreeName | timbre-lib/sweep_dx7_patches.py:554-559 | the rename loop ends and stops at the first free candidate |
| SweepNames.Pigeonhole | timbre-lib/sweep_dx7_patches.py:554-559 | as many different candidates as have been tried fit into the names already used |
| SweepNames.UniqueNames | timbre-lib/sweep_dx7_patches.py:547-562 | one name per patch, all different, each the raw name or the first free suffix |
| SweepNames.NameIs | timbre-lib/sweep_dx7_patches.py:547-562 | bank, patch and voice, and behind them the smallest free number from 2 on if an earlier patch has that name |

## Left out

- Floating-point noise: interpolation and distance use exact rationals; `round(x, 1)` is rounding of the exact value.
- VirusSmfAgree.WalkersAgree: for F7-terminated sysex events, for program change and channel pressure on channel 0 (`SafeStatuses` shows that the other channels lose messages), and for extra header bytes that do not spell MTrk; behind those that do, `parse_stdmidi` reads header bytes as a track and can return anything.
- VirusMorphs.EmissionExactly: for vocabularies whose slot indices are below 128, as Virus parameters are; for any vocabulary `StepWrites` says when a step is written, and `EmissionIsFaithful` when it reads back.
- VavraMorphs.StepIsFaithful: a condition on the chain that is enough at every step; `StepExactly` is the exact condition on one step.
- XeniaBank.BankRoundTrip: about raw streams; a sysex bank stored as a Standard MIDI File is covered by `ParseUndoesPrint`.
- MicrowaveBanks.MidFileLabelsAreRowLabels: for files without an F0 outside the sysex events or an F7 inside one, on whose messages both readers agree; `LongEvent` and `NamesExactly` say when they do, `StrayF0LosesPatch` shows the first condition is needed.
- NordMorphs.LoadedStepIsLost: for a loaded piece that ends before the rewritten dump; where a headless piece swallows the beginning of that dump, only that the reader loads another piece is said (`ReaderSeesFirstDump`).
- Je8086Explode.ExplodeRoundTrip: for F7-free payloads, as all payloads read from a file are (`FileUnitsRoundTrip`).
- Harvest.HarvestEngine: takes the hash as injective, configurations already projected and quantized, and the describers as functions of the configuration.
- McpProtocol.KthWaitGetsKthNotice: one wait at a time, all for one topic, as the sweep issues them.
- McpExports.OwnNoticeExactly: for an engine that sends one notification per export it completes, in the order of the exports, and completes every export it accepts; without the last, `CreditIsCounted` gives the count.
- McpClient.Client.OnLine: a JSON id equal to an integer by Python's rules (1.0, true) counts as that integer; a broken pipe while sending is not modelled.
- OffsetMap.ClustersSurvive: for scans whose keys stay apart; on the others renaming merges clusters, as `CollisionsMerge` shows.
- Values of other Python types (bool, float overrides, digit-string override keys, JSON numbers as text) and `int()` parses beyond plain digits.
- `je8086_patch` roles, labels and descriptions, which follow from the blob and the name; file names beyond ASCII letters and digits, and white space other than blanks around a sidecar's name.
- Heuristic scans of Standard MIDI Files by F0 search (`nl2x_patch.split_smf_sysex`) and RIFF unwrapping: `NordMorphs.ResolveBase` takes the scan of such files as a parameter; `write_patch` refuses them.
- `virus_patch.parse_tibank` fields beyond data and validity, `parse_tdm`, `parse_vhc`, format detection and sub-synth mapping.
- Directory walks, format detection, JSON and command lines: corpora and banks arrive as lists.
- `vavra_dump.select_pairs`, `build_auto_pairs` and the morph sheet documents: deterministic glue.
- Roles, keywords, describers, DSP, CLAP and LLM stages, transports and subprocesses, and the C++ engine.
