# A verified model of rvz-core

rvz-core turns disc images of two game consoles into RVZ containers and back, and removes the
scrambling of raw disc sectors. This project models its core in Dafny and proves it correct:

- **The padding codec** (`crates/rvz/src/lfg.rs`, `pack.rs`, `unpack.rs`). Discs are padded with the
  output of a lagged Fibonacci generator over GF(2) with 521 words and lag 32. The encoder finds
  padding by running the generator backwards from raw output and recovering its 17-word seed; the
  decoder regenerates the bytes from the seed and the position on the disc.
- **The container** (`encoder.rs`, `decoder.rs`, `push.rs`). One pass over the disc plans regions,
  decrypts partitions, strips hash trees that can be recomputed, keeps the exceptions and numbers the
  groups. One decoder reads what it needs; another is fed the bytes it asks for.
- **The sector scrambling** (`crates/gc-disc/src/lib.rs`). A 15-bit shift register scrambles sectors
  that carry a 32-bit error detection code (sections 16.4 and 17 of ECMA-267); the seed is found by
  trying candidates until the code matches.

## How it is built

Code that changes things in place is modelled by methods and classes with the source's fields and
loops: the two generators, the descrambler, the encoder, the buffers of a group, the push decoder.
Each is proved against a specification function, and what the program is for is proved about those
functions; where a function describes a format or a choice, it is tied besides to a description by
bytes that names none of it. AES-CBC, SHA-1 and zstd are arbitrary functions in a `Codec`, of which
only this is known: on whole cipher blocks encryption and decryption undo each other and keep the
length, a digest has 20 bytes, and what was compressed is not empty and decompresses to what it was.
Stores are byte sequences, and what is written is logged.

The modules, from the bottom up:

- `Words`, `BigEndian`, `Sizes`, `Results`, `Sorting`, `Buffers`: common ground.
- `Recurrence`, `PaddingStream`, `Generator`, `Detection`, `Soundness`: the generator, forwards,
  backwards and in place, and seed recovery.
- `Unpacking`, `Accepting`, `Packing`, `Finding`, `PackRoundTrip`, `PackExactly`, `BitStream`,
  `PhaseGap`: the record format, what is found and recorded, and the round trip.
- `Edc`, `Lfsr`, `LfsrCode`, `Descramble`, `Descrambling`: scrambled sectors.
- `Format`, `HashTree`, `Exceptions`, `Regions`, `Groups`, `Tables`, `Container`, `TableGap`: the
  container and what decoding it means.
- `DiscBlocks`, `SoundTree`, `Differing`, `Discovery`, `Storing`, `Layout`, `Reading`, `Opening`,
  `Refusing`: the same said over again by the bytes of the disc and of the file alone, and that the
  two agree.
- `Chunking`, `PartRoundTrip`, `Planning`, `Decoding`, `EndToEnd`, `SmallDisc`, `FarData`, `GapDisc`:
  what the encoder makes of a disc, and the round trip.
- `ChunkBuilder`, `Streaming`, `Reporting`, `Encoder`, `Assembly`: the encoder. `Decoder`,
  `Delegation`, `Push`: the two decoders. `Recovery`: encoder and decoders together.

## What came out

The main results are `Assembly.EncodeIsoToRvz` with `EndToEnd.RoundTrip` (encoding and decoding gives
the disc), `Push.Drive` (the fed decoder does what the reading one does), `Soundness.DetectExactly`
and `PackExactly.RoundTripsExactly` (padding), and `Descramble.SearchFindsSeed` (scrambling). By bytes
alone, `Discovery.PartitionsTaken`, `Storing.PartStored`, `SoundTree.SoundNeedsNoPatches` and
`Layout.EncodedLayout` say what the encoder makes of a disc, `Reading.ReadAsSaid`,
`Opening.PartOpensExactly` and `Accepting.UnpacksExactly` what the decoder makes of a file, and
`Reporting.DoneExactly` what the encoder tells on the way.

Three promises turned out to hold only under a condition. The code was kept as it is, the condition
is proved exact, and each has a concrete failing input:

- **Packing** (`crates/rvz/src/lfg.rs:234-250`). The search rounds a window's start up to a word when
  it counts generator periods, but compares bytes from the start itself. For a window that starts in
  the last three bytes of a 2084-byte period it therefore compares with bytes one period later. A
  chunk comes back exactly when every recorded stretch starts in phase, or is shorter than a period
  and has the right leading bytes (`PackExactly.RoundTripsExactly`); `PhaseGap.RoundTripFails` is a
  chunk that does not. A start at a word boundary is always in phase. A disc all of whose chunks fit
  is called recoverable; decoding the container of any other disc succeeds too, but writes wrong
  bytes (`EndToEnd.RoundTrip`). The chunk just named is such a disc (`GapDisc.GapIsNotRecovered`).
- **Coverage** (`crates/rvz/src/encoder.rs:187`). The distance from a partition to its data is cut to
  32 bits before the stretch between them is compressed. The plan covers the disc exactly when every
  partition that is set up has its data less than 4 GiB after its start
  (`Planning.PlanCoversExactly`); `FarData.FarIsNotCovered` gives discs that are planned but not
  covered. The encoder also reads each partition header after all that precedes it was compressed,
  exactly when no partition with far data is followed by a candidate that is considered and whose
  header lies on the disc (`Planning.InTimeExactly`, and `Assembly.EncodeIsoToRvz` for the run
  itself); `FarData.LateIsReadEarly` shows discs on either side of that line. Separately, the disc's
  first 0x80 bytes live in the container's header, so a disc no longer than that has no
  regions and nothing of it is written.
- **Tables** (`crates/rvz/src/decoder.rs:214`). Tables are always compressed, but taken to be
  uncompressed when they have the uncompressed length. A table reads back exactly when the lengths
  differ or compression changed nothing (`Container.TableInflates`); `TableGap.TableMisread` is a
  table that does not.

The round trip's other hypotheses, gathered in `EndToEnd.Encodable`, are the format's limits: a disc
and a container below 2^64 bytes, chunks that start below 16 GiB (`Container.PositionKept`), tables
below 4 GiB, fewer than 2^32 partitions, and a disc that can be planned without a panic.
`SmallDisc.SomeDiscIsEncodable` shows that they can be met.

## Model

| member | source | states |
|---|---|---|
| Recurrence.RewindMixed | crates/rvz/src/lfg.rs:125-137 | Going back from a buffer whose first m words are already those of the next period gives the current period, for every m and across the wraparound of the lag of 32 words |
| Recurrence.MixedRewind | crates/rvz/src/lfg.rs:125-137 | The other direction: every buffer is a partial step away from exactly one period, so going back loses nothing even on data that is no generator's output |
| Recurrence.BackWindow | crates/rvz/src/lfg.rs:162-165 | Going back as many periods as a buffer has advanced gives the first period again |
| Recurrence.WindowAt | crates/rvz/src/lfg.rs:116-123 | Every advanced buffer continues the same linear recurrence; partner of the two generators' `forward` |
| PaddingStream.RecoverLost | crates/rvz/src/lfg.rs:169-173 | The two bits that the output transform drops from a seed word reappear in the difference of the outputs 16 and 15 places on |
| PaddingStream.RecoveredOrigin | crates/rvz/src/lfg.rs:162-180 | For every seed, the seed read out of the first period is the canonical one, and it passes the consistency check |
| PaddingStream.CanonicalOrigin | crates/rvz/src/lfg.rs:139-180 | The canonical seed, which may differ from the original only in bits 16 and 17 of word 0, has the identical stream |
| PaddingStream.StreamDoubled | crates/rvz/src/lfg.rs:197-201 | Every word of every seed's stream passes the bit filter, however far on |
| Generator.Lfg.constructor | crates/rvz/src/lfg.rs:27-52 | The expander starts at byte 0 of the padding of its seed: four periods into the recurrence that begins with the seed's expansion |
| Generator.Lfg.ForwardBytes | crates/rvz/src/lfg.rs:64-70 | Moves exactly `count` bytes on in the stream |
| Generator.Lfg.NextBytes | crates/rvz/src/lfg.rs:73-84 | Returns the next `count` bytes of the stream and stands right after them |
| Generator.LaggedFibonacciGenerator.Forward | crates/rvz/src/lfg.rs:116-123 | The in-place loops leave the following 521 words of the recurrence |
| Generator.LaggedFibonacciGenerator.Backward | crates/rvz/src/lfg.rs:125-137 | The in-place loops take words `startWord` up to `endWord` back by one period, whatever part of the buffer has already moved on |
| Generator.LaggedFibonacciGenerator.Initialize | crates/rvz/src/lfg.rs:139-160 | Succeeds exactly when no check is asked for or the later words match the seed's expansion; then the buffer is four periods into the stream of that seed |
| Generator.LaggedFibonacciGenerator.Reinitialize | crates/rvz/src/lfg.rs:162-180 | The seed is recovered from four periods back, and accepted exactly when its expansion agrees with all 521 words |
| Generator.LaggedFibonacciGenerator.GetByte | crates/rvz/src/lfg.rs:182-191 | The next byte of the stream, with the period advanced when it is used up |
| Generator.LaggedFibonacciGenerator.GetSeedU32 | crates/rvz/src/lfg.rs:193-225 | The four outcomes (too short, filter, check, found) as a function of the words; when found, the buffer holds the stream at the period in which the window lies |
| Generator.LaggedFibonacciGenerator.GetSeed | crates/rvz/src/lfg.rs:228-256 | For a slice of at least the size given, finds a seed exactly as `Detect` says and counts the longest run of its bytes that continue its stream from the position compared with |
| Detection.DetectPadding | crates/rvz/src/lfg.rs:193-225 | Completeness: any window of at least 521 whole words of any seed's padding, at any offset, yields the canonical seed, which stands for the same stream |
| Detection.PaddingDeterminesSeed | crates/rvz/src/lfg.rs:193-225 | Two seeds show the same window of padding exactly when they have the same canonical seed |
| Detection.PhaseExact | crates/rvz/src/lfg.rs:234-250 | Which position bytes are compared from: the one the data stands at, or, in the last three bytes of a period, one period later |
| Detection.WholeWindowMatched | crates/rvz/src/lfg.rs:228-256 | A whole window of padding is counted exactly when it does not start in the last three bytes of a period or is all zeroes |
| Soundness.DetectExactly | crates/rvz/src/lfg.rs:193-225 | Soundness and completeness: a seed is found if and only if the first 521 whole words are some seed's stream, and then they are the found seed's |
| Soundness.RecoveredStands | crates/rvz/src/lfg.rs:162-180 | A buffer that passes the bit filter and the check is the first period of the seed recovered from it; no false positives |
| Unpacking.SeedBytes | crates/rvz/src/lfg.rs:260-266 | Fills an array with the seed's words, little-endian; partner of `RecordedSeed` |
| Unpacking.RecordedSeed | crates/rvz/src/lfg.rs:27-43 | The expander reads the recorded little-endian bytes as big-endian words, so what was recorded stands for the reversed words |
| Unpacking.ReadPiece | crates/rvz/src/unpack.rs:22-54 | One record: its four error conditions in the source's order, or its bytes (padding from the absolute phase) and where the next record begins |
| Unpacking.Unpack | crates/rvz/src/unpack.rs:8-64 | The loop equals the recursive reading of records, with every error case, for every input |
| Unpacking.PieceOfRecord | crates/rvz/src/unpack.rs:22-54 | Any written record, wherever it stands, reads back as the bytes it stands for if and only if its length leaves bit 31 free |
| Unpacking.UnpackRecords | crates/rvz/src/unpack.rs:21-63 | Any list of written records whose literals stay below 2^31 bytes unpacks to what they stand for, one after another |
| Packing.ScanForJunk | crates/rvz/src/pack.rs:11-43 | The scan loop finds exactly the stretches of the recursive scan, window by window |
| Packing.ScanOrdered | crates/rvz/src/pack.rs:15-43 | The stretches found are in order, disjoint, nonempty and inside the chunk |
| Finding.ScanIs | crates/rvz/src/pack.rs:15-43 | The scan finds just the stretches of padding: each starts at the first nonzero byte of its 0x8000 bytes of the disc, whose first 521 whole words from there show a stream, and reaches as far as the bytes go on with it |
| Finding.LongRecorded | crates/rvz/src/pack.rs:51-93 | Every stretch longer than a seed that does not start too near the end is recorded, where it stands, as one record |
| Packing.PickJunk | crates/rvz/src/pack.rs:52-66 | The candidate loop with its early `break` picks the first stretch that reaches far enough, unless it starts too near the end |
| Packing.EmitStep | crates/rvz/src/pack.rs:75-92 | One round of emission adds the planned records and always reaches further, so the safety `break` cannot be taken |
| Packing.EmitRecords | crates/rvz/src/pack.rs:45-96 | All rounds together write the planned records, and the returned size is their length; no records give size 0 and the data itself |
| Packing.RvzPackChunk | crates/rvz/src/pack.rs:9-96 | Packing as a function of any chunk and offset: `PackedChunk`, lengths cut to 32 bits included; its partner is `PackExactly.RoundTripsExactly` |
| PackRoundTrip.JunkRegenerates | crates/rvz/src/lfg.rs:228-256 | What is counted as padding in phase is, byte for byte, what the expander produces from the recorded seed at that place |
| PackRoundTrip.PackedSize | crates/rvz/src/pack.rs:45-96 | Packing never leaves nothing and grows a chunk by at most 75 bytes for every 69 and 4 more |
| PackRoundTrip.PlanSize | crates/rvz/src/pack.rs:51-93 | From any position on, the records take at most 75 bytes for every 69 they stand for and 4 more, beyond those 69 themselves |
| PackRoundTrip.PlanLength | crates/rvz/src/pack.rs:51-93 | The records account for every byte of the chunk once |
| PackRoundTrip.PurePaddingPacks | crates/rvz/src/pack.rs:15-93 | Optimality: N consecutive full windows of padding, for any N and whatever the N seeds, pack into exactly N records, 72 N bytes |
| PackExactly.RoundTripsExactly | crates/rvz/src/pack.rs:9-96 | Where literals stay below 2^31 bytes, a chunk comes back from its packed form if and only if every recorded stretch starts in phase, or is shorter than a period and its few leading bytes are right; the packed size is nonzero exactly with records and is the packed length |
| PackExactly.RegainedExactly | crates/rvz/src/unpack.rs:8-64 | Unpacking a packed chunk whose literals stay below 2^31 bytes never fails; what it gives is the chunk if and only if every recorded stretch fits |
| PackExactly.ScanExactly | crates/rvz/src/pack.rs:15-43 | The same for every stretch the scan finds, recorded or not |
| PackExactly.OutOfPhase | crates/rvz/src/lfg.rs:234-253 | Out of phase, a stretch that starts with a nonzero byte is regenerated if and only if it is short and its lead is right |
| PackExactly.PlanExactly | crates/rvz/src/pack.rs:51-93 | Records stand for the data they replace if and only if each recorded stretch is regenerated |
| PackExactly.PhasesSuffice | crates/rvz/src/pack.rs:20-37 | It is enough that no window of the scan starts in the last three bytes of a period |
| PackExactly.PackThenUnpack | crates/rvz/src/unpack.rs:8-64 | The promised round trip for every chunk and offset whose window starts are in phase and whose literals stay below 2^31 bytes |
| PackExactly.ShortReadable | crates/rvz/src/pack.rs:75-92 | Chunks below 2^31 bytes have no longer literals, wherever they lie |
| PackRoundTrip.AlignedStart | crates/rvz/src/lfg.rs:234-250 | A window that starts on a word boundary of the disc is always in phase |
| PhaseGap.RoundTripFails | crates/rvz/src/lfg.rs:234-250 | A concrete chunk, out of phase, that packs and then unpacks without error to something else |
| GapDisc.GapIsNotRecovered | crates/rvz/src/lfg.rs:234-250 | The same chunk as a disc: it can be encoded and is covered, decoding its container succeeds, and what is written is not the disc |
| BitStream.StreamBits | crates/rvz/src/lfg.rs:26-85 | A family of seeds whose padding is a bit sequence with a recurrence of its own; makes the counterexample computable |
| Edc.TableEntry | crates/gc-disc/src/edc_table.rs:5-38 | Each of the 256 table entries is what eight division steps make of that byte |
| Edc.TableStepExact | crates/gc-disc/src/lib.rs:56-60 | One table lookup is eight steps of division by x^32 + x^31 + x^4 + 1 |
| Edc.EdcCalc | crates/gc-disc/src/lib.rs:56-62 | The table-driven loop computes the bit-serial remainder of every byte string from every start state |
| Edc.RemainderXor | crates/gc-disc/src/lib.rs:56-62 | The code is linear: of an exclusive or it is the exclusive or of the codes |
| Edc.StoredCodeChecks | crates/gc-disc/src/lib.rs:92-99 | A stored code matches if and only if the code of data and stored bytes together is zero |
| Lfsr.LfsrStream | crates/gc-disc/src/lib.rs:65-78 | The nested loops put out the register's stream, a byte per eight steps, from the low 15 bits of the seed |
| Lfsr.StreamFromXor | crates/gc-disc/src/lib.rs:65-78 | The cipher is linear in the register state |
| Lfsr.StreamXor | crates/gc-disc/src/lib.rs:65-78 | The exclusive or of two seeds' ciphers is the stream of their difference |
| LfsrCode.CodeOfStream | crates/gc-disc/src/lib.rs:56-78 | No nonzero register state has 2048 bytes of output with code zero: the two linear maps meet only in zero |
| Descramble.MaskedChecks | crates/gc-disc/src/lib.rs:88-100 | Scrambling a sound sector leaves it sound if and only if the mask's own code is zero, wherever the mask stands |
| Descramble.AcceptsByCode | crates/gc-disc/src/lib.rs:88-100 | On a sound sector scrambled with s, candidate c passes if and only if the code of the stream of their difference is zero |
| Descramble.AcceptsOnlySeed | crates/gc-disc/src/lib.rs:88-100 | ... if and only if c equals s in its low 15 bits: the test has no false positives |
| Descramble.SearchFindsSeed | crates/gc-disc/src/lib.rs:154-165 | The search recovers the seed of every soundly made sector, or reports none exactly when it lies at or beyond the limit |
| Descramble.DescramblesMade | crates/gc-disc/src/lib.rs:168-210 | Descrambling a made block with its seed gives the payload sixteen times; with any other seed verification fails at the first sector |
| Descramble.UnscrambledExactly | crates/gc-disc/src/lib.rs:179-210 | For any block and cipher, `Unscrambled` says by bytes what comes out: 0x8000 bytes, byte 2048 k + i being byte 6 + i of sector k, the cipher taken off from byte 12 on; and with codes to be right, that all are, or which sector is the first whose code is wrong |
| Descramble.SectorBytes | crates/gc-disc/src/lib.rs:254-268 | A made sector by its bytes: its number in bytes 1 to 3, the payload from byte 6 on, a right code |
| Descrambling.TestSeed | crates/gc-disc/src/lib.rs:88-100 | Accepts exactly the candidates under which the stored code is right |
| Descrambling.MakeTestBlock | crates/gc-disc/src/lib.rs:250-273 | Sixteen sectors with consecutive numbers, the payload, sound codes, all scrambled with one seed |
| Descrambling.Descrambler.SetSeed | crates/gc-disc/src/lib.rs:131-135 | Sets one phase to the low 15 bits and drops the cipher cached for it; the other fifteen seeds and ciphers stay |
| Descrambling.Descrambler.CipherFor | crates/gc-disc/src/lib.rs:142-151 | The cipher of the phase's seed, whether cached or computed; the cache never goes stale, and nothing else changes |
| Descrambling.Descrambler.FindSeed | crates/gc-disc/src/lib.rs:154-165 | The least accepted candidate below the limit, recorded for the phase, or none and nothing changed |
| Descrambling.Descrambler.UnscrambleBlock | crates/gc-disc/src/lib.rs:168-210 | The three errors and the data, with the cached seed if there is one and the searched one otherwise: byte by byte each sector's own bytes 6 to 2054 without the cipher, or the first sector whose code is wrong; only the block's own phase changes |
| Descrambling.MakeAndUnscramble | crates/gc-disc/src/lib.rs:168-273 | Making a block and descrambling it gives the payload sixteen times, for every seed within the limit or cached |
| HashTree.FillH0 | crates/rvz/src/decoder.rs:287-301 | The H0 arrays of all 64 blocks, missing ones hashed as zeroes |
| HashTree.FillH1H2 | crates/rvz/src/decoder.rs:302-314 | The H1 and H2 arrays over them |
| HashTree.HashBlock | crates/rvz/src/decoder.rs:316-322 | The header of a block from the three arrays, zero in between; that these are the right ones is `SoundTree.SoundExactly` |
| HashTree.HashGroup | crates/rvz/src/encoder.rs:288-331 | The encoder's recomputation gives the headers `HashHeaders`, as the decoder's does; they are the one right tree (`SoundTree.SoundExactly`) |
| SoundTree.SoundExactly | crates/rvz/src/encoder.rs:288-331 | Headers are those recomputed if and only if they make a right hash tree, said by their bytes: the digests of the block's own kilobytes, of what the headers of its eight blocks begin with, of what the first headers of the eight eights have at 0x280, and zeroes between |
| SoundTree.SoundNeedsNoPatches | crates/rvz/src/encoder.rs:333-360 | A window of the disc has no exceptions if and only if its decrypted headers make a right tree over its decrypted data |
| SoundTree.DecodedTree | crates/rvz/src/decoder.rs:276-343 | A group that is decoded without exceptions stands on the disc with a right tree |
| Exceptions.HeaderCovered | crates/rvz/src/encoder.rs:339-346 | The six ranges, with their last slots moved back, leave no byte of a header out |
| Exceptions.PatchingRights | crates/rvz/src/encoder.rs:347-359 | Whatever the overlaps, once the slots are patched in order every byte they hold is the original's |
| Exceptions.PatchesRestore | crates/rvz/src/decoder.rs:323-325 | Any original header comes back from any recomputed one and the exceptions found between them |
| Exceptions.CollectHashExceptions | crates/rvz/src/encoder.rs:333-360 | The loops find one exception per differing slot, in order, at the block's offset |
| Differing.HeaderPatchesAre | crates/rvz/src/encoder.rs:339-359 | What a header needs is just where it is compared and differs, in order: the 52 places are listed by their offsets |
| Differing.ChunkExceptionsAre | crates/rvz/src/encoder.rs:545-554 | A chunk's exceptions are just those of its blocks, 0x400 apart, in rising order |
| Exceptions.ChunkExceptionsFit | crates/rvz/src/encoder.rs:541-549 | At most 52 exceptions a block, each inside its block's header, so the 16-bit count and offsets hold them |
| Exceptions.BuildExceptionList | crates/rvz/src/encoder.rs:362-371 | The list in place in a buffer: count, then offset and hash of each |
| Exceptions.ListReads | crates/rvz/src/decoder.rs:418-430 | The written list parses back to the same exceptions, whatever follows it |
| Differing.ListIs | crates/rvz/src/encoder.rs:362-371 | The list by its bytes: two for the count, then two for each offset and 20 for its hash |
| Exceptions.ChunkFiled | crates/rvz/src/decoder.rs:441-443 | Filing a chunk's exceptions gives each block of the group exactly its own, in order |
| Tables.PartTableReads | crates/rvz/src/decoder.rs:136-162 | A partition table written for any number of partitions parses back to them |
| Tables.RawTableReads | crates/rvz/src/decoder.rs:500-509 | So does a table of raw regions |
| Tables.GroupTableReads | crates/rvz/src/decoder.rs:510-518 | And a table of groups |
| Container.HeadersRead | crates/rvz/src/decoder.rs:96-133 | Headers parse back to every field they were made from |
| Container.TableInflates | crates/rvz/src/decoder.rs:205-222 | A compressed table reads back if and only if its length differs from the uncompressed one, or compression left it as it was |
| TableGap.TableMisread | crates/rvz/src/decoder.rs:205-222 | Lawful primitives and the raw table of a one-region disc whose compressed form has the uncompressed length and is taken for it |
| Container.LaidOut | crates/rvz/src/encoder.rs:710-772 | Chunks and tables lie one after another from 0x124 on at multiples of four without overlap, and the recorded file size is the length of the file |
| Container.EntryHolds | crates/rvz/src/encoder.rs:723-734 | Where positions are kept, a group entry loses nothing of its chunk's position, size, flag and packed size |
| Container.PositionKept | crates/rvz/src/encoder.rs:725-734 | The 32 bits kept of a quarter of a chunk's position give the position back if and only if it is below 16 GiB |
| Container.ChunksFetch | crates/rvz/src/decoder.rs:240-252 | Reading by the group entries fetches every chunk back |
| Container.FileReads | crates/rvz/src/decoder.rs:478-518 | A container reads back as the header, partitions, raw entries and group entries put into it |
| Layout.EncodedLayout | crates/rvz/src/encoder.rs:588-640 | The container of a disc by its bytes: every field of both headers at its place, the three digests and what they are of, every row of the three tables, and every chunk where its row says |
| Layout.ChunksFollow | crates/rvz/src/encoder.rs:713-736 | The first chunk comes right after the headers, each next one at the next multiple of four, with zeroes between |
| Layout.TablesFollow | crates/rvz/src/encoder.rs:745-776 | So do the partition table, the raw table and the group table, which ends the file |
| Reading.ReadAsSaid | crates/rvz/src/decoder.rs:96-222 | What any file is made of, by its bytes: the reasons it is refused for its headers, in order, and for one that is read, that the headers are right and every number and row stands where it is read |
| Chunking.RawComesBack | crates/rvz/src/decoder.rs:243-269 | A raw chunk, packed or not, compressed or not, decodes without failing to what unpacking regains of the bytes it was made from |
| Chunking.RawTiles | crates/rvz/src/encoder.rs:241-260 | From any chunk on, a raw region's writes follow each other without gap or overlap to the region's end and hold what is regained |
| Chunking.RawExactly | crates/rvz/src/decoder.rs:233-271 | What a raw region decodes to is the disc if and only if every chunk of it comes back from its packed form |
| Chunking.BlockComesBack | crates/rvz/src/encoder.rs:519-526 | Encrypting the decrypted header, then the data with the vector out of it, gives the encrypted block back |
| Chunking.EncryptedInjective | crates/rvz/src/decoder.rs:326-334 | Different headers or data give different encrypted blocks, so a wrong block cannot come out right |
| Chunking.PartComesBack | crates/rvz/src/encoder.rs:550-569 | A partition chunk opens to its exceptions and to what is regained of its data, under the padded and the unpadded layout |
| PartRoundTrip.ChunkAdds | crates/rvz/src/decoder.rs:435-444 | Reading a chunk fills exactly its own slots of the group, after those of the chunks before it |
| PartRoundTrip.WindowBack | crates/rvz/src/decoder.rs:316-342 | A full window, 64 blocks or the short last one, comes out as the blocks rebuilt from restored data, recomputed hashes and exceptions |
| PartRoundTrip.PartStepBack | crates/rvz/src/decoder.rs:373-472 | Before chunk i slots 0 to First(i) - 1 are filled and the rest empty; the step adds the chunk, or writes the window and clears |
| PartRoundTrip.StateNext | crates/rvz/src/decoder.rs:463-470 | The state after chunk i is the one expected before chunk i + 1; the group starts at a multiple of 64 |
| PartRoundTrip.PartTiles | crates/rvz/src/decoder.rs:373-472 | From any chunk on, the region's writes are the rebuilt blocks from the start of that chunk's window to the region's end |
| PartRoundTrip.PartRegionBack | crates/rvz/src/decoder.rs:347-474 | The stored chunks of a partition region with any number of blocks decode without failing to its rebuilt blocks, end to end |
| PartRoundTrip.RestoredWindow | crates/rvz/src/decoder.rs:316-342 | A window whose data is restored is rebuilt to its encrypted blocks, whatever its hash headers held |
| PartRoundTrip.PartExactly | crates/rvz/src/encoder.rs:489-585 | Round trip of a partition region: what is rebuilt is the encrypted disc if and only if every chunk comes back from its packed form |
| Planning.SetUpBounds | crates/rvz/src/encoder.rs:125-193 | A partition that passes has its data at a block's start, at least one block of it, all inside the disc |
| Planning.CandidatesInRange | crates/rvz/src/encoder.rs:83-122 | The candidates start on the disc and come sorted |
| Planning.AddRawSound | crates/rvz/src/encoder.rs:213-240 | Recording a raw region keeps a plan sound: valid regions, groups numbered without gaps, all entries in order |
| Planning.AddRawCovers | crates/rvz/src/encoder.rs:216-240 | A raw region carries the cover on, the disc header aside |
| Planning.Stretches | crates/rvz/src/encoder.rs:438-444 | The two stretches of a partition are its whole blocks, the second starting where the first ends, despite the file table's end and unaligned sizes |
| Planning.CandidateKeeps | crates/rvz/src/encoder.rs:404-464 | Every candidate keeps the plan sound, and if its data starts within 4 GiB, everything below `lastEnd` covered |
| Planning.PlanCovers | crates/rvz/src/encoder.rs:396-478 | Every finished plan is sound, and covers the disc if all data starts that near |
| Planning.GapStays | crates/rvz/src/encoder.rs:402-478 | A byte that was passed over is never covered later |
| Planning.FarGap | crates/rvz/src/encoder.rs:426-437 | Any partition whose data starts further away leaves such a byte |
| Planning.PlanCoversExactly | crates/rvz/src/encoder.rs:396-478 | A plan covers every byte of the disc if and only if every partition that is set up has its data less than 4 GiB after its start |
| Planning.InTimeExactly | crates/rvz/src/encoder.rs:402-464 | Every partition header is read after all before it was compressed if and only if no partition with far data is followed by a candidate that is considered and whose header lies on the disc |
| Planning.NearComesLast | crates/rvz/src/encoder.rs:402-464 | Where all partition data is near, that is so |
| Planning.PlanChains | crates/rvz/src/encoder.rs:396-478 | When every candidate starts at a block, the plan is one chain of regions from 0 to the end of the disc |
| Sorting.SortedKeeps | crates/rvz/src/decoder.rs:541-544 | The sort orders by start and keeps every element |
| Sorting.SortedStable | crates/rvz/src/decoder.rs:541-544 | The sort is stable: what has the same start keeps its order |
| Sorting.SortedOnce | crates/rvz/src/decoder.rs:541-544 | What is in strict order is what any rearrangement of it sorts to |
| FarData.FarIsNotCovered | crates/rvz/src/encoder.rs:426-437 | Concrete discs whose partition data starts 4 GiB on, with any tail behind it: planning succeeds, and the plan leaves bytes out, whatever the primitives |
| FarData.LateIsReadEarly | crates/rvz/src/encoder.rs:402-437 | On these discs, with one more candidate right behind the data, headers are read in order if and only if the tail is too short for that candidate's header |
| Decoding.ImageComplete | crates/rvz/src/decoder.rs:478-558 | Writes that are right wherever they go, in any order and overlapping or not, and that reach everything leave the image |
| Decoding.ImageExactly | crates/rvz/src/decoder.rs:478-558 | Writes that follow each other through the whole disc leave it if and only if each of them is right |
| EndToEnd.OrderHolds | crates/rvz/src/encoder.rs:233-240 | Chunk i of region k has the number that the region's entry gives it |
| EndToEnd.RegionStored | crates/rvz/src/encoder.rs:277-278 | So at every region the group index is the number of chunks delivered before it |
| EndToEnd.RegionBack | crates/rvz/src/decoder.rs:546-555 | A region's stored chunks decode, write its stretch of the disc through, and are all right if and only if every chunk of it comes back from its packed form |
| EndToEnd.RegionsBack | crates/rvz/src/decoder.rs:546-555 | Regions decoded in any order reach just what they cover, and write nothing wrong if and only if all of them come back |
| EndToEnd.EncodedReads | crates/rvz/src/encoder.rs:690-794 | The container of a disc reads back as its size, its header, the planned regions and the chunks |
| EndToEnd.SizeTold | crates/rvz/src/encoder.rs:774-791 | It tells the disc's size and holds its first 0x80 bytes |
| EndToEnd.PlanCoversWhen | crates/rvz/src/encoder.rs:396-478 | The plan of a disc covers it exactly when the disc is empty, or longer than its header and with near data |
| EndToEnd.DecodesToParts | crates/rvz/src/decoder.rs:478-558 | Decoding an encoded disc succeeds, reaches exactly what was planned, and writes nothing wrong if and only if every packed chunk comes back |
| EndToEnd.RoundTrip | crates/rvz/src/encoder.rs:690-794 | The round trip: decoding succeeds; it writes nothing wrong if and only if the disc is recoverable, reaches every byte if and only if it is coverable, and leaves the disc when it is both |
| EndToEnd.StrictTiling | crates/rvz/src/decoder.rs:520-555 | For coverable discs whose candidates are block-aligned the sorted writes are strictly sequential, no gap, no overlap, from 0 to the end, and leave the disc if and only if it is recoverable |
| SmallDisc.SomeDiscIsEncodable | crates/rvz/src/encoder.rs:690-794 | The hypotheses of the round trip can be met, recovery included |
| SmallDisc.SmallEncodes | crates/rvz/src/encoder.rs:388-486 | Every disc of one chunk that has no partitions can be encoded and is covered |
| SmallDisc.SmallRecovers | crates/rvz/src/encoder.rs:388-486 | Such a disc comes back exactly when every stretch recorded for its one chunk fits |
| ChunkBuilder.BuildRawChunk | crates/rvz/src/encoder.rs:248-259 | Packs and stores as `StoreRaw` says; what that is `Storing.RawStored` says by the bytes of the disc |
| ChunkBuilder.ReadWindow | crates/rvz/src/encoder.rs:505-529 | The loop leaves the decrypted data and the decrypted hash headers of the window's blocks |
| ChunkBuilder.StripBlocks | crates/rvz/src/encoder.rs:535-539 | The blocks' data end to end in one buffer |
| ChunkBuilder.CollectChunk | crates/rvz/src/encoder.rs:541-549 | The exceptions of all blocks of the chunk, block by block |
| ChunkBuilder.StoreTogether | crates/rvz/src/encoder.rs:555-569 | Stores as `StorePart` says; what that is `Storing.PartStored` says by the bytes of the disc |
| ChunkBuilder.BuildPartChunk | crates/rvz/src/encoder.rs:532-569 | One chunk of a window: what it stores is the chunk whose decoding `PartRoundTrip.PartExactly` characterises |
| Storing.RawStored | crates/rvz/src/encoder.rs:236-259 | Every chunk of a raw region is the disc's bytes there, packed for that place, and compressed if and only if that is shorter |
| Storing.PartStored | crates/rvz/src/encoder.rs:489-585 | Every chunk of a partition holds the list of just the exceptions from the right tree and the decrypted data of its blocks, packed for its place in the stretch, both together compressed if and only if that is shorter than data and padded list |
| Encoder.DetectPartitions | crates/rvz/src/encoder.rs:83-122 | The candidates of the four tables, sorted stably, tables out of range passed over; what is found is just what an entry names |
| Discovery.FoundAsNamed | crates/rvz/src/encoder.rs:83-122 | By the bytes of the disc: a candidate is found as many times as entries of the four tables at 0x40000 name it, the table lying on the disc and the candidate starting there; and so found at all if and only if one does |
| Encoder.SetUpPartition | crates/rvz/src/encoder.rs:125-193 | The guards on header, alignment and size, the clipped data size, the title key and the file table's bounds; a header is read exactly when it lies on the disc |
| Discovery.SetUpExactly | crates/rvz/src/encoder.rs:125-193 | By the bytes of the disc: when a candidate is a partition, when it is an error, where its data is, the title key from its ticket, and the file table's bounds from its first block |
| Discovery.PartitionsTaken | crates/rvz/src/encoder.rs:402-464 | The plan's entries are those of partitions among the candidates, with key and data start; every partition has one, or starts inside another that starts no later |
| Discovery.PlanRises | crates/rvz/src/encoder.rs:402-478 | Raw entries and partition entries each stand in the order in which their chunks are numbered |
| Discovery.SplitExactly | crates/rvz/src/encoder.rs:438-444 | The first stretch ends with the first whole group, counted from the data's start, that reaches past the file table, or with the data |
| Encoder.Encoder.OnChunk | crates/rvz/src/encoder.rs:723-737 | Appends the chunk padded to four bytes and notes position, size and flag; the file stays the layout of `Container.Body` |
| Encoder.Encoder.DeliverRaw | crates/rvz/src/encoder.rs:241-260 | Delivers the region's chunks in order, none twice, and reports each as `Reporting.DoneExactly` says; what is done grows by the region's bytes |
| Encoder.Encoder.CompressRawRegion | crates/rvz/src/encoder.rs:198-262 | Advances the plan as `AddRaw` says and delivers exactly the planned chunks |
| Encoder.Encoder.DeliverWindow | crates/rvz/src/encoder.rs:516-579 | The chunks of one window, numbered on from those of the region before it, each reported with what was done before the window |
| Encoder.Encoder.CompressPartitionRegion | crates/rvz/src/encoder.rs:489-585 | The windows of 64 blocks and a short last one together deliver the region's chunks, each once, and what is done grows by the region's bytes |
| Encoder.Encoder.CreatePde | crates/rvz/src/encoder.rs:265-285 | Reserves the groups of a stretch and moves the group index by their number |
| Encoder.Encoder.CompressData | crates/rvz/src/encoder.rs:438-463 | The split at the file table and both stretches; the plan becomes `AddData`, and its cover is `Planning.AddDataCovers` |
| Encoder.Encoder.CompressCandidate | crates/rvz/src/encoder.rs:404-464 | One candidate keeps the invariant that plan, group index, chunks and file agree; progress never decreases, and the pass goes on in order if and only if the candidate is passed over, has no header on the disc, or all before it was covered |
| Encoder.Encoder.CompressIso | crates/rvz/src/encoder.rs:388-486 | The whole pass ends with the plan `PlanOf` and its chunks in the file; it reads a header beyond 0x80 only after delivering all before it if and only if no partition with far data is followed by a candidate that is considered and whose header lies on the disc (`Planning.FarComesLast`); what is done is then the sum of the regions, and progress never decreases |
| Planning.AddDataCovers | crates/rvz/src/encoder.rs:438-463 | A partition's data carries the cover from its start to the end of its last whole block |
| Streaming.StreamedHeader | crates/rvz/src/encoder.rs:402-422 | A header read keeps the pass in order if and only if the delivered regions cover everything before it |
| Reporting.DoneExactly | crates/rvz/src/encoder.rs:258-259 | What is told with the chunk of any number: the stretch of the disc it is, and how many bytes were delivered, with a raw region up to and with it, with a partition before its window of 64 blocks (`encoder.rs:570-581`) |
| Reporting.OrderSum | crates/rvz/src/encoder.rs:258-259 | All chunks together deliver as many bytes as the regions have |
| Assembly.BuildPartTable | crates/rvz/src/encoder.rs:650-661 | The buffer filled in place is the concatenation of the rows that `Tables.PartTableReads` parses |
| Assembly.BuildRawTable | crates/rvz/src/encoder.rs:663-670 | Likewise for raw entries |
| Assembly.BuildGroupTable | crates/rvz/src/encoder.rs:672-679 | Likewise for groups, with the compressed flag in bit 31 |
| Assembly.BuildRvzHeaders | crates/rvz/src/encoder.rs:588-641 | Both headers with their digests, as `Container.HeadersRead` parses them |
| Assembly.FinishFile | crates/rvz/src/encoder.rs:740-793 | Adds tables and headers; the result is the container `Container.File` of the recorded entries |
| Assembly.EncodeIsoToRvz | crates/rvz/src/encoder.rs:690-794 | The whole encoder: it fails exactly when planning does, and otherwise leaves the file whose decoding `EndToEnd.RoundTrip` characterises, having delivered just what the plan covers and reported each chunk as `Reporting.DoneExactly` says; whatever the outcome, progress never decreases, and headers are read in order if and only if no partition with far data is followed by a candidate that is considered and whose header lies on the disc (`Planning.FarComesLast`) |
| Regions.UnpackedFully | crates/rvz/src/unpack.rs:57-63 | Unpacking never succeeds with a number of bytes other than that asked for |
| Accepting.UnpacksExactly | crates/rvz/src/unpack.rs:8-64 | Packed data unpacks if and only if it is made of pieces, bytes or padding told by bit 31 of a number, that stand for just the bytes expected and none of which comes too late; and to what they stand for |
| Refusing.PieceRefused | crates/rvz/src/unpack.rs:21-56 | Why packed data is refused at a piece: its number, seed or bytes are cut off, or it brings too many bytes |
| Refusing.UnpackRefused | crates/rvz/src/unpack.rs:8-64 | Why packed data is refused behind any pieces that are taken: its length, the next piece, input left over, or its end too soon |
| Opening.RawOpensExactly | crates/rvz/src/decoder.rs:242-270 | A raw chunk opens as zeroes if it has no bytes, else as its bytes, inflated and unpacked as its row says, and only so |
| Opening.PartOpensExactly | crates/rvz/src/decoder.rs:370-429 | The same for a partition's chunk: the list with all its entries in range, and the data behind it |
| Refusing.RawRefused | crates/rvz/src/decoder.rs:242-270 | Why a raw chunk does not open, with which error |
| Refusing.PartRefused | crates/rvz/src/decoder.rs:376-408 | Why a partition's chunk does not open, in order, with which error |
| Opening.RawRegionDecodes | crates/rvz/src/decoder.rs:224-272 | A raw region of any container, with any chunk size, decodes if and only if each of its chunks opens; each is written where it goes, and together they fill the region's blocks |
| Opening.RawRunStops | crates/rvz/src/decoder.rs:224-272 | It stops at the first chunk that does not open, having written those before it |
| Refusing.RawStepRefused | crates/rvz/src/decoder.rs:232-242 | Why a raw region stops at a chunk, in order, with which error |
| Refusing.PartStepRefused | crates/rvz/src/decoder.rs:370-378 | The same for a partition's stretch |
| Opening.RegionsStop | crates/rvz/src/decoder.rs:546-556 | Decoding stops in the first region that fails, having written all before it |
| Opening.RegionsAll | crates/rvz/src/decoder.rs:546-556 | If no region fails, all are written in order |
| Groups.GroupStep | crates/rvz/src/decoder.rs:347-474 | In any container whose chunks of k blocks divide a group, the slots of a group are filled from its start on and no others; a chunk is taken in exactly when it opens, and what is put out at a group's or the region's end is every block since the group's start |
| Groups.FilledFlushes | crates/rvz/src/decoder.rs:446-471 | Putting out never misses a block of a group so filled |
| Groups.RegionDecodes | crates/rvz/src/decoder.rs:347-474 | A partition region of any such container decodes if and only if each of its chunks opens, and its writes then follow each other from its first block to its last |
| Decoder.DecompressRaw | crates/rvz/src/decoder.rs:224-273 | The loop writes what `RawRun` says, up to the same failure |
| Decoder.ReadExceptions | crates/rvz/src/decoder.rs:419-430 | The exceptions of a list, or the error of the first that does not fit its chunk |
| Decoder.OpenPart | crates/rvz/src/decoder.rs:385-433 | A stored chunk's data and exceptions, with every error case in the source's order |
| Decoder.GroupBuffers.PlaceBlocks | crates/rvz/src/decoder.rs:435-440 | Places the chunk's blocks in the slots modulo 64, changing no other |
| Decoder.GroupBuffers.FileExceptions | crates/rvz/src/decoder.rs:441-443 | Adds each exception to its block's list, in order |
| Decoder.GroupBuffers.Finalize | crates/rvz/src/decoder.rs:276-344 | Rebuilds the first n blocks in place from data, recomputed hashes and exceptions, or reports a missing block |
| Decoder.GroupBuffers.Flush | crates/rvz/src/decoder.rs:446-471 | At a group's or the region's end writes the group and clears every buffer; otherwise changes nothing |
| Decoder.DecompressChunk | crates/rvz/src/decoder.rs:373-472 | One turn of the loop is one step of `PartStep` |
| Decoder.DecompressPartition | crates/rvz/src/decoder.rs:347-474 | The loop writes what the region's run says; partner `PartRoundTrip.PartRegionBack` |
| Decoder.ParseParts | crates/rvz/src/decoder.rs:136-162 | Entries of any declared size not below 0x30; shorter ones are refused |
| Decoder.DecompressTable | crates/rvz/src/decoder.rs:205-222 | Inflates unless the length is the expected one, and refuses any other length |
| Decoder.BuildRegions | crates/rvz/src/decoder.rs:520-544 | Partition stretches without the empty ones, then raw regions, sorted stably by start |
| Decoder.ReadContents | crates/rvz/src/decoder.rs:176-203 | Header, partitions and both tables of any file, or the first error |
| Decoder.DecompressRvz | crates/rvz/src/decoder.rs:478-558 | The whole decoder writes what `Decoded` says and ends as it does, for every file |
| Delegation.FinalizedDelegated | crates/rvz/src/decoder.rs:329-341 | A group put out in plaintext becomes, encrypted by its taker, the group put out encrypted |
| Delegation.FlushedDelegated | crates/rvz/src/push.rs:490-523 | Delegating changes neither state nor offsets nor errors, only that blocks are yet to be encrypted |
| Push.PartState.constructor | crates/rvz/src/push.rs:79-99 | A partition under way starts with empty slots at block 0 |
| Push.PushDecoder.constructor | crates/rvz/src/push.rs:137-158 | The first request is for the first header |
| Push.PushDecoder.FeedHeader1 | crates/rvz/src/push.rs:201-214 | Fed the file's first 0x48 bytes, it asks for both headers |
| Push.PushDecoder.FeedHeader2 | crates/rvz/src/push.rs:215-238 | Then for the partition table if there are partitions, else for the raw table |
| Push.PushDecoder.FeedPartTable | crates/rvz/src/push.rs:239-249 | Then for the raw table, holding the partitions the reading decoder has |
| Push.PushDecoder.FeedRawTable | crates/rvz/src/push.rs:250-270 | Then for the group table, holding the raw entries the reading decoder has |
| Push.PushDecoder.LoadGroups | crates/rvz/src/push.rs:271-288 | Holds the groups and the sorted regions the reading decoder has |
| Push.PushDecoder.FeedGroupTable | crates/rvz/src/push.rs:271-290 | Starts on the regions with everything still to be written |
| Push.PushDecoder.NextRegion | crates/rvz/src/push.rs:323-328 | What is left to write does not change by moving to the next region |
| Push.PushDecoder.IssueRegionRequest | crates/rvz/src/push.rs:330-355 | Skips exhausted regions and either asks for the next group or is done; what is left to write does not change; ends by (regions left, groups left) |
| Push.PushDecoder.IssuePartRequest | crates/rvz/src/push.rs:357-372 | The same for a partition under way |
| Push.PushDecoder.ProcessRawGroup | crates/rvz/src/push.rs:374-417 | A raw group moves one write from what is left to what was put out, and is one group fewer |
| Push.PushDecoder.TakePartGroup | crates/rvz/src/push.rs:419-523 | A partition group changes the buffers as the reading decoder's step does, and puts out the same blocks, encrypted or yet to be |
| Push.PushDecoder.ProcessPartGroup | crates/rvz/src/push.rs:419-526 | Conservation: what was put out and what is left make up the same writes before and after |
| Push.PushDecoder.Feed | crates/rvz/src/push.rs:191-301 | The run invariant: every right feed succeeds, keeps the run on the reading decoder's track and leaves exactly one feed fewer; a request stands exactly when it is not done |
| Push.PushDecoder.FeedsLeftPositive | crates/rvz/src/push.rs:199-301 | While it is not done there is a feed to come |
| Push.PushDecoder.DoneWrites | crates/rvz/src/push.rs:199-301 | When it is done, it has put out what the reading decoder writes, in the same order |
| Push.PushDecoder.TakeOutput | crates/rvz/src/push.rs:177-181 | Outputs leave first in, first out, each with its key |
| Push.Drive | crates/rvz/src/push.rs:191-301 | Refinement over whole runs: for every container that decodes, feeding what is asked for ends, after 4 or 5 table feeds and one per group, with the reading decoder's writes in their order; delegated blocks become them by encryption, and without delegation no output has a key |
| Recovery.EncodeThenDecode | crates/rvz/tests/encoder_stream.rs:107-156 | Encoding and decoding tells the disc's size and gives the disc if it is coverable and recoverable; when partitions start at blocks, only then |
| Recovery.EncodeThenFeed | crates/rvz/src/push.rs:191-301 | So does feeding the container to the push decoder, delegating or not |

## Left out

- Assembly.EncodeIsoToRvz: input and output never fail and reads are short only at the end of the disc; the error results of stores and of compression itself, and what a failed run leaves in the store, are not modelled.
- Assembly.FinishFile: counts and sizes are reduced to the width of their fields, but the 64-bit sums of positions are unbounded.
- Container.ChunksFetch: is stated for chunks that start below 16 GiB, where their positions are kept; what is decoded from others is not followed up.
- Decoder.DecompressRvz: a panic of the program, by a slice out of range or by checked arithmetic, is the result `Err(Panic)`; a release build wraps around instead of panicking on overflow.
- Decoder.DecompressTable: a table that decompresses is any table for which the decompression function has a result; zstd's own errors are one error.
- Encoder.Encoder.CompressCandidate: the order of reads is told for partition headers; the first block of a partition's data, read along with its header to find the file table, is read before the stretch between them is delivered.
- Encoder.SetUpPartition: the key that title keys are encrypted with is a parameter, where the program has a constant.
- PackExactly.RoundTripsExactly: assumes that literals stay below 2^31 bytes, as they do in chunks of the fixed size; the length of a longer one is written so that it does not read back (`Unpacking.PieceOfRecord`), and what a whole chunk with such a literal unpacks to is not followed up.
- Planning.SetUpBounds: the partition's type, which nothing depends on, is not kept.
- Groups.RegionDecodes: is stated for chunks whose blocks divide a group; other chunk sizes decode as `Regions.RegionRun` says, but what their groups hold is not characterised.
- Push.PushDecoder.Feed: promises what happens for the bytes of a file that decodes; for others only that a failure is reported or the invariant holds.
- Push.Drive: the error text of a failed feed and the output size query are not modelled.
- Descrambling.MakeTestBlock: the sector number is unbounded, where the program adds in 32 bits and a debug build panics if `lba + 0x3000f` reaches 2^32; only the low 24 bits are written.
- Descrambling.Descrambler.FindSeed: the cache file that seeds are loaded from and saved to is not part of this model.
- The compression level is only recorded in the header; what zstd makes of it is not modelled.
- AES, SHA-1 and zstd themselves (`crates/rvz/src/crypto.rs`).
- The command line, the WebAssembly bindings and the check script: file handling, polling, digests of whole discs, JSON, raw pointers.
- Equality with the output of other encoders, and the fixed vectors of the tests: finite comparisons.
