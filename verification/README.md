# netkitty in Dafny

netkitty turns captured bytes into structure and back. This project models five parts of it and proves what they promise.

1. **Capture files.** `PcapParser` is the push-driven parser as a step function on its state, `PcapParserCore` the object whose
   state functions update its fields; `PcapGenerators` and `PcapWriter` write both formats. `ChunkInvariance` says exactly when the
   trace does not depend on how a stream is cut, `ParserOffsets` where the reported frames lie, `WriterInverse`,
   `GeneratedCuts` and `WriterReports` what comes back from a written file, `ThrowingCuts` which part of a stream makes the
   parser throw, and `SectionHandler` what a caller's onSectionHeader changes. `PcapLayout` and `PcapngLayout` describe files
   octet by octet, without the parser, and say what it reports of any of them. `Init` is the parser of a caller with every
   handler, whose trace the theorems about written files give; `FrameReader` that of the index builder and the watch.
2. **The analysis worker.** `ColumnarStore`, `FrameIndexer` and `PcapIndexBuilder` build the column index; `Conversation`,
   `DisplayFilter`, `BuiltinScans`, `Statistics`, `AnalysisWorker` and `FrameBatch` relate every answer taken from the columns
   to its slow twin over decoded layers; `WatchPump`, `WatchFates` and `TailedIndex` treat the tail of a growing file as a
   step relation over growth, timer ticks and answers. `TcpStream`, `TcpStreamReducer`, `TcpRefinement`, `TcpConservation` and
   `TcpFates` cover the TCP reducer, and `TcpReports` reads its whole report off the frame list.
3. **LZ4.** `Lz4` holds the decoder in place, `Lz4Inverse` its inverse.
4. **The codec engine.** `BitFields`, `PacketBuffer` and `EncodedFields` cover the shared buffer; `TlvWalk` with `Collectd`, `Glbp`,
   `Babel`, `Geneve`, and `DnsNames`, `CraftedNames`, `Dns`, `DnsLayout` the byte-exact headers; `Dispatch`, `KeyForms`, `StableSort`, `LinearScan`, `Codec`
   and `Consistency` the choice of the next layer and the editor's check of it.
5. **Retiming.** `Retimer` is the stateful timestamp function against a closed form over the whole capture.

Objects whose methods update fields are classes; each method is proved against a function of the old state, and the theorems
are about that function. Standards: draft-ietf-opsawg-pcapng, draft-ietf-opsawg-pcap, LZ4 Block and Frame Format, section 4.1.4 of
RFC 1035, section 3.2 of RFC 1982.

## Where the code differs from its promise

- `parseNgBlock` accepts blocks shorter than the fields it reads. Then the trace depends on the cut, and a watch of the file can
  die for good. Which fields a section header always has depends on the caller: its versions are read for an onSectionHeader,
  which the stream parser installs and the index builder and the watch do not. Exact conditions on the octets, for either
  caller: `ChunkInvariance.ChunkInvarianceIff`, `WatchFates.StuckIff`; shortest failing inputs: `SectionHandler.ShortestUnsized`,
  `WatchFates.ShortInterfaceKills`. Classic pcap is never affected.
- A tick can be lost when a read below the size just told comes back empty, since that ends the pass: `WatchPump.TickKeptIff`
  for the size at the tick, `WatchPump.PassReadsIff` for the size the pass was told, with the schedule `WatchFates.EmptyReadLosesTick`. A file that only grows never gives such a read, and then no tick is lost:
  `WatchPump.AnsweredTicksAreKept`.
- DNS encoding after decoding is not the identity when a section runs past the capture, GENEVE's is not when its option region
  does: `Dns.DecodeEncodeIff`, `Geneve.DecodeEncodeIff`; inputs `Dns.CutQuestionLost`, `Geneve.CutRegionLost`.
- A crafted DNS label of 192 octets or more reads back as a pointer, and text with an empty label is cut short:
  `CraftedNames.CraftedNameIff`; inputs `CraftedNames.LongLabelsLost`, `CraftedNames.DotLost`.
- A TCP segment vanishes when the first acknowledgement to cover it is stamped earlier than it: `TcpFates.ConservedIff`; input
  `TcpFates.EarlyAckLoses`.
- With two headers under one id the consistency check asks the first one's producers: `Consistency.DecodeIsConsistentIff`; input
  `Consistency.ShadowedIdQuestioned`. A key with a leading zero is suggested as a number with another key:
  `Consistency.SuggestionAcceptedIff`, `Consistency.PaddedKeyRejected`.
- A millisecond timestamp before the epoch is written as its fraction of a second after it, where the code means to clamp it:
  `PcapGenerators.MillisMeans`; input `PcapGenerators.NegativeTurned`.
- From the columns an `eth.*` filter term is false on every IP frame, though it may match the decoded layers:
  `DisplayFilter.EthWrongIff`; input `DisplayFilter.EthSelectorMisses`.
- A timestamp that is fractional, negative or not normalised is reported by the writer as passed in, not as written:
  `WriterReports.SameTimeIffNormal`; input `WriterReports.FractionLost`.
- A windowed shift can move a frame before its predecessor: `Retimer.ShiftKeepsOrderIff`; input `Retimer.ShiftBreaksOrder`.
- Protocol ids beyond 65535 wrap in their column: `FrameIndexer.NamesRecoveredIff`; input `FrameIndexer.TooManyNames`, which takes
  custom headers.
- Babel counts a TLV value beyond 255 octets in full but writes 255 of them, and counts a TLV without a type as two octets and
  its value but writes one: `Babel.DerivedCountsIff`; inputs `Babel.LongValueMiscounted`, `Babel.TypelessMiscounted`.
- The narrow bit path passes 2^32 inside its double remainder, without losing exactness: `BitFields.SumStaysNarrowIff`.

## Model

| member | source | states |
|---|---|---|
| PcapParser.StepProgress | packages/pcap-core/src/PcapParserCore.ts:129-139 | every state function that asks to be called again has consumed octets or moved to a phase of lower rank, so the drain loop terminates |
| PcapParserCore.PcapParserCore.Write | packages/pcap-core/src/PcapParserCore.ts:115-139 | the fields and the event log after a write are those of the reference drain, also when the write throws and when the parser has already failed |
| PcapParserCore.PcapParserCore.DetectFormat | packages/pcap-core/src/PcapParserCore.ts:171-207 | the format and byte order chosen from the magic, or the failure |
| PcapParserCore.PcapParserCore.ParsePacketHeader | packages/pcap-core/src/PcapParserCore.ts:239-263 | a record header is consumed and reported, or refused for its length |
| PcapParserCore.PcapParserCore.ParsePacketBody | packages/pcap-core/src/PcapParserCore.ts:267-298 | the body is reported with the offsets of its record |
| PcapParserCore.PcapParserCore.ParseInterfaceOptions | packages/pcap-core/src/PcapParserCore.ts:340-361 | the option walk gives the interface resolution of the reference walk |
| PcapParserCore.PcapParserCore.ParseNgBlock | packages/pcap-core/src/PcapParserCore.ts:397-481 | one turn on a pcapng block: wait, fail, throw, or consume and report, exactly as the reference step; the versions of a section header are read and reported only for a caller with an onSectionHeader |
| ChunkInvariance.StepExtend | packages/pcap-core/src/PcapParserCore.ts:171-298 | a step that did not wait does the same on a longer buffer, one that waited is repeated unchanged when more has arrived |
| ChunkInvariance.AnyCut | packages/pcap-core/src/PcapParserCore.ts:115-139 | feeding any pieces of a stream without undersized blocks gives the events of feeding it whole, errors and end included, fails exactly when that does, and unless it fails ends in the same state |
| ChunkInvariance.ClassicSized | packages/pcap-core/src/PcapParserCore.ts:211-298 | a classic pcap stream always meets that condition |
| ChunkInvariance.ChunkInvarianceIff | packages/pcap-core/src/PcapParserCore.ts:397-481 | with or without an onSectionHeader, the trace is the same for every cut if and only if no block the parser reaches is shorter than the fields then always read |
| ChunkInvariance.CutShows | packages/pcap-core/src/PcapParserCore.ts:416-453 | for any stream with an undersized block, the cut right behind that block gives one more event than no cut |
| SectionHandler.HandlerOnlyListens | packages/pcap-core/src/PcapParserCore.ts:427-435 | on a stream without undersized blocks for a caller with every handler, one without an onSectionHeader is safe too and under any cut gets the same reports but for the section headers |
| SectionHandler.ShortestUnsized | packages/pcap-core/src/PcapParserCore.ts:427-445 | with every handler a section header block of 12 octets throws on its own write and on the next; without an onSectionHeader that block with a 12-octet interface description block behind it does; no shorter stream depends on its cut |
| ThrowingCuts.CutThrows | packages/pcap-core/src/PcapParserCore.ts:416-453 | the part of an unsized stream up to its first undersized block throws, and no shorter part reaches such a block |
| ThrowingCuts.PartThrows | packages/pcap-core/src/PcapParserCore.ts:115-139 | that part throws under every cut of it |
| ParserOffsets.ReportedFramesAreSlices | packages/pcap-core/src/PcapParserCore.ts:267-298 | with or without an onSectionHeader and under any cut, packets are numbered 1, 2, 3, ..., their records ascend without overlap, each reported slice of the stream is the frame delivered just before, and no frame exceeds the limit |
| ParserOffsets.EmitAdvances | packages/pcap-core/src/PcapParserCore.ts:365-393 | the offsets of a pcapng packet locate its octets in the stream fed so far |
| PcapLayout.PcapReads | packages/pcap-core/src/PcapParserCore.ts:171-298 | for any octets that lie as a classic file, in any of the four forms of the magic, and under any cut: the header with its signed zone, every record with its frame, place and time, then the record header that lacks its frame or the record over 262144 octets |
| PcapLayout.RefusedAtOnce | packages/pcap-core/src/PcapParserCore.ts:171-231 | an unknown magic or a major version other than 2 is all that is reported |
| PcapngLayout.PcapngReads | packages/pcap-core/src/PcapParserCore.ts:397-481 | for any octets that lie as a pcapng file, sections in either byte order with any interfaces, options, enhanced, obsolete, simple and other blocks, and under any cut: every packet with its frame and place, at the resolution of its interface in its section, then the block refused and why |
| PcapngLayout.OptionsRead | packages/pcap-core/src/PcapParserCore.ts:340-361 | the option walk gives an interface the resolution of its options, wherever the list stands and in either byte order |
| PcapngLayout.PrintedLie | packages/pcap-core/src/PcapParserCore.ts:340-361 | every option list, printed with its values padded to four octets, lies as that list |
| PcapngLayout.ResolutionIs | packages/pcap-core/src/PcapParserCore.ts:340-361 | the resolution is the first octet of the last if_tsresol with a value, and 6 for want of one |
| PcapngLayout.TimeIsFloor | packages/pcap-core/src/PcapParserCore.ts:304-317 | seconds, microseconds and nanoseconds are the floors of the ticks times the resolution, for every number of ticks a second |
| PcapGenerators.GeneratePcapHeader | packages/pcap-core/src/PcapGenerator.ts:66-77 | the 24 octets of the classic file header |
| PcapGenerators.GeneratePcapData | packages/pcap-core/src/PcapGenerator.ts:83-109 | a record holds the clamped time with whole seconds carried out of the microseconds, wrapped to 32 bits, and the frame |
| PcapGenerators.GeneratePcapSectionHeader | packages/pcap-core/src/PcapngGenerator.ts:75-87 | the 28 octets of the section header block |
| PcapGenerators.GeneratePcapngInterfaceDescription | packages/pcap-core/src/PcapngGenerator.ts:93-106 | the interface description block of the options |
| PcapGenerators.GeneratePcapngEnhancedPacket | packages/pcap-core/src/PcapngGenerator.ts:112-146 | the block holds the 64-bit tick counter in two halves, the frame padded to four octets, and its length at both ends |
| PcapGenerators.PadTo4 | packages/pcap-core/src/PcapngGenerator.ts:66-70 | zero octets up to the next multiple of four |
| PcapGenerators.GeneratePcap | packages/pcap-core/src/PcapGenerator.ts:116-122 | the whole classic file: header, then one record a packet |
| PcapGenerators.GeneratePcapng | packages/pcap-core/src/PcapngGenerator.ts:155-166 | the whole pcapng file: section, interface, then one block a packet |
| PcapGenerators.CarryMeans | packages/pcap-core/src/PcapGenerator.ts:100-103 | carrying keeps the time and leaves less than a million microseconds |
| PcapGenerators.ExplicitMeans | packages/pcap-core/src/PcapGenerator.ts:87-101 | explicit seconds and microseconds are rounded down, negative and non-finite ones count as zero |
| PcapGenerators.MillisMeans | packages/pcap-core/src/PcapGenerator.ts:53-56 | a timestamp in milliseconds is rounded to the nearest microsecond; of one before the epoch only its fraction of a second is left, counting forward |
| PcapGenerators.NegativeTurned | packages/pcap-core/src/PcapGenerator.ts:53-101 | one and a half milliseconds before the epoch are written as as much after it |
| WriterInverse.PcapInverse | packages/pcap-core/src/PcapGenerator.ts:66-109 | a generated pcap file parses to exactly the packets written, with carried times, up to the first frame over the limit, which is reported as the error |
| WriterInverse.PcapngInverse | packages/pcap-core/src/PcapngGenerator.ts:75-146 | the same for pcapng, through the option-less interface and its default microsecond ticks |
| GeneratedCuts.PcapngSized | packages/pcap-core/src/PcapngGenerator.ts:75-146 | no block of a generated pcapng file is shorter than its fixed fields |
| GeneratedCuts.PcapCutsInverse | packages/pcap-core/src/PcapGenerator.ts:66-109 | a generated pcap file parses to the packets written under every cut |
| GeneratedCuts.PcapngCutsInverse | packages/pcap-core/src/PcapngGenerator.ts:75-146 | a generated pcapng file parses to the packets written under every cut |
| WriterReports.FramesComeBackIff | packages/pcap-core/src/PcapParserCore.ts:239-298 | all frames come back exactly when none is longer than 262144 octets; otherwise a prefix does |
| WriterReports.FormatsAgreeIff | packages/pcap-core/src/PcapngGenerator.ts:112-146 | both formats report the same time for a packet exactly when its ticks wrapped the 64-bit counter a multiple of 15625 times and what is left is under 2^32 seconds |
| WriterReports.UnwrappedAgreeIff | packages/pcap-core/src/PcapngGenerator.ts:112-146 | below 2^64 ticks, exactly while its carried seconds are below 2^32 |
| PcapWriter.PcapWriter.constructor | packages/pcap/src/PcapWriter.ts:61-81 | a new file starts with its format header, an existing one is appended to, and the offset starts behind it |
| PcapWriter.PcapWriter.Write | packages/pcap/src/PcapWriter.ts:87-114 | file, index, offset and reports stay those of the calls made so far; after close nothing changes |
| WriterReports.ReportsMatch | packages/pcap/src/PcapWriter.ts:87-114 | on a new file, every packet read back has the index, offsets and lengths the writer reported, and the same time exactly when the time passed in was normal |
| WriterReports.FractionLost | packages/pcap/src/PcapWriter.ts:87-114 | half a second passed in as a fraction is reported as such and written as zero |
| WriterReports.SameTimeIffNormal | packages/pcap/src/PcapWriter.ts:87-114 | reported and parsed time agree if and only if seconds and microseconds were whole, unsigned, normalised and in range for the format |
| Lz4.Lz4DecodeBlock | packages/pcap-core/src/Lz4FrameDecompress.ts:56-84 | for any input the block decodes to the reference expansion cut at the block size; no octet of the fresh output is read before it is written |
| Lz4.CopyBack | packages/pcap-core/src/Lz4FrameDecompress.ts:76-82 | the match copy reads below the write index at each of its steps and produces the reference copy |
| Lz4.ReadLength | packages/pcap-core/src/Lz4FrameDecompress.ts:56-76 | a nibble of 15 adds continuation octets up to the first below 255; running off the input ends the block |
| Lz4.Lz4FrameDecompress | packages/pcap-core/src/Lz4FrameDecompress.ts:25-50 | magic and version are checked, optional fields skipped, and the output is the concatenation of the blocks up to the end mark or the end of the input |
| Lz4Inverse.OverlapIsPeriodic | packages/pcap-core/src/Lz4FrameDecompress.ts:76-82 | a copy from k octets back, for any k and length, repeats the last k octets periodically, octets before the output counting as zero |
| Lz4Inverse.BlockInverse | packages/pcap-core/src/Lz4FrameDecompress.ts:56-84 | decoding the serialisation of any list of sequences yields its literal and match expansion |
| Lz4Inverse.LegalCopiesWritten | packages/pcap-core/src/Lz4FrameDecompress.ts:76-82 | in a legal list every copied octet is one already written, found at its periodic place |
| Lz4Inverse.FrameInverse | packages/pcap-core/src/Lz4FrameDecompress.ts:25-50 | a frame of independent blocks, stored or compressed, written by the frame format with any descriptor, optional block checksums and with or without an end mark, decompresses to the contents, a compressed block cut to the block size its code stands for |
| Lz4Inverse.RefusedIff | packages/pcap-core/src/Lz4FrameDecompress.ts:25-34 | an input is refused exactly when it has fewer than 7 octets, another magic or another version |
| Lz4Inverse.ZeroOffsetEnds | packages/pcap-core/src/Lz4FrameDecompress.ts:68-71 | a match offset of zero ends the block behind its literals |
| TcpStreamReducer.TcpStreamReducer.Update | packages/analysis/src/reducers/TcpStreamReducer.ts:116-173 | the maps and pending lists after a frame are those of the reference reducer in serial order; other frames change nothing |
| TcpStreamReducer.TcpStreamReducer.Settle | packages/analysis/src/reducers/TcpStreamReducer.ts:158-171 | one pass splits the pending list into samples for covered segments and the rest, in order |
| TcpStreamReducer.SummarizeRtt | packages/analysis/src/reducers/TcpStreamReducer.ts:82-99 | least, greatest and mean time of the samples, or nothing without samples |
| TcpRefinement.SerialIsOrderIff | packages/analysis/src/reducers/TcpStreamReducer.ts:49-51 | the wrapped comparison is the order of the unbounded positions exactly on distances in the window, all of those below 2^31 included |
| TcpRefinement.WrappedReportsAreIdeal | packages/analysis/src/reducers/TcpStreamReducer.ts:116-173 | over any run whose compared positions are less than 2^31 apart, with any number of wraps, the wrapped reducer reports the retransmissions, duplicate ACKs and RTT samples of the ideal one |
| TcpRefinement.RetransmissionIff | packages/analysis/src/reducers/TcpStreamReducer.ts:139-153 | the ideal reducer calls a frame a retransmission exactly when an earlier frame of its direction reached its end, or it repeats a SYN |
| TcpConservation.RunHeld | packages/analysis/src/reducers/TcpStreamReducer.ts:135-172 | every consuming frame is held once for each time it occurred, less what acknowledgements dropped |
| TcpFates.ConservedIff | packages/analysis/src/reducers/TcpStreamReducer.ts:135-172 | on any timestamps and distinct indices, a consuming frame is held exactly once unless it is fresh and the first later acknowledgement to cover it is stamped earlier than it; then it is held nowhere |
| TcpFates.SamplesAreFirstAcks | packages/analysis/src/reducers/TcpStreamReducer.ts:158-171 | the RTT samples of a stream are exactly those of its fresh frames with their first covering acknowledgements, where these are not earlier |
| TcpFates.RunPending | packages/analysis/src/reducers/TcpStreamReducer.ts:135-172 | the pending list of a direction holds exactly its fresh frames that nothing has covered yet |
| TcpFates.FreshIff | packages/analysis/src/reducers/TcpStreamReducer.ts:139-153 | on unbounded positions a frame is fresh exactly when no earlier frame of its direction reached its end, nor, for a SYN, was one |
| TcpFates.EarlyAckLoses | packages/analysis/src/reducers/TcpStreamReducer.ts:158-172 | one octet sent at time 10 and acknowledged at time 5 is held nowhere |
| TcpReports.DuplicatesTold | packages/analysis/src/reducers/TcpStreamReducer.ts:152-157 | the duplicate acknowledgements of a stream are, in order, the frames that carry ACK and use no sequence space, and whose latest such predecessor with the same source and destination carried the same number |
| TcpReports.IdealReports | packages/analysis/src/reducers/TcpStreamReducer.ts:116-173 | the report of every stream, read off frames and endpoints alone: packets, duplicate acknowledgements, retransmissions and samples, the lists in the order of the frames, and the endpoints in order |
| TcpReports.WrappedReports | packages/analysis/src/reducers/TcpStreamReducer.ts:116-180 | the same for the program's reducer on 32-bit numbers, over runs whose compared positions are less than 2^31 apart, and the streams in the order of their first frames |
| TcpStreamReducer.ViewTells | packages/analysis/src/reducers/TcpStreamReducer.ts:54-80 | a segment of n octets is seen as n octets, over IPv4 or IPv6, a missing header length standing for 20; only TCP over IP is seen |
| TcpConservation.ExactlyOnce | packages/analysis/src/reducers/TcpStreamReducer.ts:135-172 | with non-decreasing times and distinct indices each consuming frame is in exactly one of retransmissions, pending and RTT samples, once, and nothing else is |
| TcpConservation.RttNonNegative | packages/analysis/src/reducers/TcpStreamReducer.ts:158-171 | every RTT is non-negative, whatever the order of the times |
| TcpConservation.AckClears | packages/analysis/src/reducers/TcpStreamReducer.ts:158-172 | no pending segment of the opposite direction covered by an acknowledgement survives it |
| BitFields.WriteSetsField | packages/codec/src/abstracts/BaseHeader.ts:456-494 | a write sets exactly the bits of the field, to those of the value, negatives in two's complement, and keeps every other bit |
| BitFields.ReadTakesField | packages/codec/src/abstracts/BaseHeader.ts:427-446 | a read is the number the bits of the field spell |
| BitFields.ReadAfterWrite | packages/codec/src/abstracts/BaseHeader.ts:427-494 | reading back gives the value modulo two to the field width |
| BitFields.WriteBack | packages/codec/src/abstracts/BaseHeader.ts:427-494 | writing back what was read changes nothing |
| BitFields.DisjointWritesCommute | packages/codec/src/abstracts/BaseHeader.ts:456-494 | writes to disjoint fields commute |
| BitFields.TruncatedWindow | packages/codec/src/abstracts/BaseHeader.ts:427-446 | a field of a window cut by the end of the capture reads as if the missing octets were leading zeros |
| BitFields.WidePathAgrees | packages/codec/src/abstracts/BaseHeader.ts:436-494 | the BigInt masks and shifts compute what the arithmetic path computes |
| BitFields.NarrowIsExact | packages/codec/src/abstracts/BaseHeader.ts:456-486 | in windows of at most four octets every number computed is a whole number below 2^53: at most 2^32 all but the sum inside the double remainder, which is below 2^33 |
| BitFields.SumStaysNarrowIff | packages/codec/src/abstracts/BaseHeader.ts:471 | that sum stays within 2^32 exactly when the field has fewer than 32 bits or the remainder is not positive |
| BitFields.OnePassesNarrow | packages/codec/src/abstracts/BaseHeader.ts:471 | the value 1 in a field of 32 bits makes it 2^32 + 1 |
| BitFields.DoubleRemainder | packages/codec/src/abstracts/BaseHeader.ts:456-486 | the double JavaScript remainder is the mathematical one for negative values |
| PacketBuffer.PacketBuffer.Access | packages/codec/src/abstracts/BaseHeader.ts:354-393 | a read is clamped or expands the packet, raises the header length unless dry, and the octets past the logical length stay zero |
| PacketBuffer.PacketBuffer.Grow | packages/codec/src/abstracts/BaseHeader.ts:360-371 | growing keeps the visible packet and pays for its copy: the total copied stays below twice the capacity reached |
| PacketBuffer.PacketBuffer.WriteBytes | packages/codec/src/abstracts/BaseHeader.ts:412-417 | the packet becomes its overlay with the octets, zero-extended when needed |
| PacketBuffer.PacketBuffer.ReadBits | packages/codec/src/abstracts/BaseHeader.ts:427-446 | either path returns the field of the clamped window |
| PacketBuffer.PacketBuffer.WriteBits | packages/codec/src/abstracts/BaseHeader.ts:456-494 | either path overlays the window with the field set |
| PacketBuffer.PacketBuffer.EncodeLayer | packages/codec/src/abstracts/BaseHeader.ts:785-819 | after any sequence of reads and writes the visible packet is the previous one overlaid with each write in order, without headroom, and growth copied less than twice its length |
| EncodedFields.RunBits | packages/codec/src/abstracts/BaseHeader.ts:354-494 | after any run each bit is that of the last write covering it, else the one the packet had |
| EncodedFields.FieldReadsBack | packages/codec/src/abstracts/BaseHeader.ts:427-494 | a field not overwritten later reads back as its value modulo its range |
| EncodedFields.BytesReadBack | packages/codec/src/abstracts/BaseHeader.ts:402-417 | octets not overwritten later read back as written |
| EncodedFields.LayersAbut | packages/codec/src/abstracts/BaseHeader.ts:785-819 | a layer encoded at the end of the packet leaves the packet ending exactly where its header ends |
| TlvWalk.WalkPrints | packages/codec/src/headers/Collectd.ts:57-128 | printing what a walk collected and left over is the region walked, however malformed its lengths, for every lawful element format |
| TlvWalk.PrintWalksIff | packages/codec/src/headers/Collectd.ts:57-128 | crafted elements come back exactly when each is good and no complete element hides in the rest |
| Collectd.Decode | packages/codec/src/headers/Collectd.ts:57-86 | the peek-then-commit loop reads the parts and the trailer of the reference walk |
| Collectd.Encode | packages/codec/src/headers/Collectd.ts:87-128 | the loop appends exactly the printed parts and trailer, recording an issue for each bad field |
| Collectd.DecodeEncode | packages/codec/src/headers/Collectd.ts:57-128 | every payload is reproduced, with nothing recorded |
| Collectd.EncodeDecodeIff | packages/codec/src/headers/Collectd.ts:57-128 | crafted parts come back exactly when each is good and the trailer starts with no complete part |
| Collectd.WireDecodes | packages/codec/src/headers/Collectd.ts:57-128 | good parts are written in the octets their fields name in their order, and read from them |
| Glbp.Decode | packages/codec/src/headers/GLBP.ts:52-99 | fixed fields, TLVs and trailing octets as the reference walk reads them |
| Glbp.Encode | packages/codec/src/headers/GLBP.ts:52-133 | the same fields appended, clamped and recorded when out of range |
| Glbp.DecodeEncode | packages/codec/src/headers/GLBP.ts:75-133 | every payload of at least 12 octets is reproduced |
| Glbp.EncodeDecodeIff | packages/codec/src/headers/GLBP.ts:75-133 | a crafted message comes back exactly when its fields fit, its TLVs are good and none hides in the tail |
| Glbp.WireDecodes | packages/codec/src/headers/GLBP.ts:52-133 | a good message is written in the octets its fields name in their order, and read from them |
| HeaderFields.ClampIsNearest | packages/codec/src/headers/Babel.ts:101-112 | a field out of range is written as the nearest number that fits, with one issue naming the side |
| Babel.Decode | packages/codec/src/headers/Babel.ts:120-148 | the walk stops at the body length or the payload, Pad1 octets are elements, the rest is the trailer |
| Babel.Encode | packages/codec/src/headers/Babel.ts:149-188 | head, TLVs and trailer appended in order; a missing body length is derived |
| Babel.DeriveBodyLength | packages/codec/src/headers/Babel.ts:73-100 | one octet for Pad1 and two plus its value for any other TLV: never less than the octets they are printed in, and equal to them exactly when every TLV has a type and no value is over 255 octets |
| Babel.DerivedCountsIff | packages/codec/src/headers/Babel.ts:73-188 | the same for the derived length as a function of the TLVs |
| Babel.LongValueMiscounted | packages/codec/src/headers/Babel.ts:73-100 | a value of 256 octets is counted in full and printed one octet shorter |
| Babel.TypelessMiscounted | packages/codec/src/headers/Babel.ts:73-155 | a TLV without a type is counted as two octets and printed as one, so a zero octet of trailer comes back as a TLV |
| Babel.DecodeEncode | packages/codec/src/headers/Babel.ts:120-188 | every payload of at least 4 octets is reproduced, lying body lengths included |
| Babel.EncodeDecodeIff | packages/codec/src/headers/Babel.ts:120-188 | a crafted message comes back exactly when its head fits, its TLVs are good, the body length covers them and no TLV hides in the octets it covers beyond them |
| Babel.DerivedComesBack | packages/codec/src/headers/Babel.ts:73-188 | with the body length left out, good TLVs that have a type come back whatever the trailer |
| Babel.WireDecodes | packages/codec/src/headers/Babel.ts:60-188 | a good packet is written in the octets its fields name in their order, and read from them |
| Geneve.Decode | packages/codec/src/headers/GENEVE.ts:128-155 | bit fields, options and tail as the reference reads them; the header ends with the option region or the payload |
| Geneve.DecodeOptions | packages/codec/src/headers/GENEVE.ts:128-150 | the option walk stops where an option would pass the end of the region |
| Geneve.Encode | packages/codec/src/headers/GENEVE.ts:156-176 | options and tail written, then Opt Len derived and laid over octet 0 |
| Geneve.DecodeEncodeIff | packages/codec/src/headers/GENEVE.ts:128-176 | the consumed octets are reproduced exactly when the whole option region was captured |
| Geneve.CutRegionLost | packages/codec/src/headers/GENEVE.ts:128-176 | a concrete header whose announced options were not captured, and its octets lost |
| Geneve.EncodeDecodeIff | packages/codec/src/headers/GENEVE.ts:128-176 | a crafted header comes back exactly when its fields fit, its options are good, none hides in the tail and Opt Len can count the region |
| Geneve.WireDecodes | packages/codec/src/headers/GENEVE.ts:60-176 | a good header is written in the octets its fields name in their order, and read from them |
| DnsNames.FollowName | packages/codec/src/headers/DNS.ts:254-283 | the read loop returns the labels and the end of the reference reading, on any octets, pointer cycles included |
| DnsNames.FollowEnds | packages/codec/src/headers/DNS.ts:254-283 | the loop halts, and a name ends after where it starts |
| DnsNames.SpellsUnique | packages/codec/src/headers/DNS.ts:254-283 | an offset spells at most one name in the sense of section 4.1.4 of RFC 1035 |
| DnsNames.NameIsStandard | packages/codec/src/headers/DNS.ts:254-283 | a name so spelled that visits at most 256 offsets is read as its labels and its own extent; a longer one as a prefix of its labels |
| CraftedNames.WriteName | packages/codec/src/headers/DNS.ts:289-310 | a decoded name is written as its raw octets, a crafted one as length-prefixed labels and a zero |
| CraftedNames.JoinSplit | packages/codec/src/headers/DNS.ts:289-310 | joining the labels of a text gives the text back |
| CraftedNames.CraftedNameIff | packages/codec/src/headers/DNS.ts:254-310 | a crafted name reads back, text and extent, exactly when it is the root or has at most 255 labels of 1 to 191 octets |
| CraftedNames.CutNameEnds | packages/codec/src/headers/DNS.ts:254-283 | labels that run up to the end of the message end there as if a zero followed |
| Dns.DnsHeader.DecodeSection | packages/codec/src/headers/DNS.ts:127-217 | one section read from the shared cursor, as many entries as its count says or as can start inside the message |
| Dns.DnsHeader.EncodeSection | packages/codec/src/headers/DNS.ts:145-243 | one section written from the shared cursor, RDLENGTH derived |
| Dns.DnsHeader.Decode | packages/codec/src/headers/DNS.ts:46-217 | the message of the reference decoder, consuming up to the cursor or the end of the capture |
| Dns.DnsHeader.Encode | packages/codec/src/headers/DNS.ts:46-243 | exactly the octets of the reference encoder |
| Dns.HeadReproduced | packages/codec/src/headers/DNS.ts:46-123 | the flag bits and counts of any header come back octet for octet |
| Dns.DecodeEncodeIff | packages/codec/src/headers/DNS.ts:127-310 | the consumed octets are reproduced, compression pointers included, exactly when the declared sections end inside the message |
| Dns.CutQuestionLost | packages/codec/src/headers/DNS.ts:127-158 | a concrete message cut inside its question, not reproduced |
| DnsLayout.LaidOutDecodes | packages/codec/src/headers/DNS.ts:93-232 | a message laid out in the octets, names compressed or not, as many entries in each section as its count says, decodes to exactly its fields, flags and four lists, and is written back |
| DnsLayout.CountsBound | packages/codec/src/headers/DNS.ts:105-130 | however a message is cut, no section has more entries than its own count, and only the last with any has fewer |
| DnsLayout.CraftedComesBack | packages/codec/src/headers/DNS.ts:93-270 | a crafted message whose fields fit, whose counts hold and whose names read back comes back, RDLENGTH being the length of the data whatever it was given as |
| DnsLayout.HeadIssuesTell | packages/codec/src/headers/DNS.ts:96-127 | an issue is recorded for each header field that does not fit, and for no other |
| DnsLayout.FieldsWrap | packages/codec/src/headers/DNS.ts:146-154 | a field of an entry is written modulo its range |
| CraftedNames.LongLabelsLost | packages/codec/src/headers/DNS.ts:254-310 | text without a dot of 192 octets or more never reads back |
| CraftedNames.DotLost | packages/codec/src/headers/DNS.ts:254-310 | the text of a single dot never reads back |
| StableSort.SortRanked | packages/codec/src/Codec.ts:183-185 | sorting by descending priority keeps registration order within a priority |
| Dispatch.BucketHolds | packages/codec/src/Codec.ts:137-175 | a bucket holds a header exactly when it is registered under that exact key |
| Dispatch.RangesHold | packages/codec/src/Codec.ts:137-175 | a range entry covers a value for a header exactly when one of its range keys does |
| Codec.CodecTables.BuildDispatchTable | packages/codec/src/Codec.ts:137-185 | the tables built by the loop are the sorted reference tables of the registration list |
| Codec.CodecTables.EnterHeader | packages/codec/src/Codec.ts:144-178 | one registration enters its keys, ranges and heuristic listing, and the first registration of an id stays |
| Codec.CodecTables.TryKey | packages/codec/src/Codec.ts:272-290 | candidates of a key: its bucket, then the ranges of its namespace |
| Codec.CodecTables.SelectCodec | packages/codec/src/Codec.ts:258-300 | keys in order, then content candidates, then the catch-all |
| LinearScan.SelectIsLeast | packages/codec/src/Codec.ts:258-300 | the selected header is, among all registered headers whose guard accepts, the least by key position, exact before range, priority and registration order; else the first accepting content header; else the catch-all |
| KeyForms.ParseRangeIff | packages/codec/src/Codec.ts:187-199 | a key is taken for a range exactly when it is a namespace, a colon and two decimal numbers in order with a dash between |
| KeyForms.RangeValueIs | packages/codec/src/Codec.ts:281-291 | a demux key is looked up among the ranges by the namespace before its first colon and the integer behind it |
| KeyForms.OneKey | packages/codec/src/Codec.ts:215-248 | a producer whose field is present gives its namespace, a colon and the value, numbers in decimal, identifiers and octets in lower case |
| KeyForms.DecimalReads | packages/codec/src/Codec.ts:237-248 | an integer is printed in digits that read as it by their places |
| Consistency.RangeKeyMeans | packages/codec/src/Codec.ts:215-250 | a demux key that falls in a range has the namespace and the number of its producer |
| Consistency.ConsistentIsListed | packages/codec/src/Codec.ts:472-509 | the check through the tables is the check on the registration list: child exempt, or parent silent, or some carried producer leads to a header with the child's id |
| Consistency.DecodeIsConsistentIff | packages/codec/src/Codec.ts:215-300 | a layer is consistent with whatever decode may select after it, under any guards, if and only if every header that claims one of its demux keys goes unquestioned |
| Consistency.DecodeIsConsistent | packages/codec/src/Codec.ts:215-300 | hence any two neighbouring layers of any decode run pass the check, when the first layer's id is not registered before with other producers |
| Consistency.ShadowedIdQuestioned | packages/codec/src/Codec.ts:405-409 | a concrete registration list under which a decoded pair is reported: two headers share an id |
| Consistency.SuggestionAccepted | packages/codec/src/Codec.ts:417-466 | setting the suggested discriminator makes the pair consistent, when the exact keys that reach this child through its field are written as decode writes them |
| Consistency.SuggestionAcceptedIff | packages/codec/src/Codec.ts:417-509 | for a child reached by one exact key, the suggestion set alone is accepted if and only if decode would write that key back from it |
| Consistency.PaddedKeyRejected | packages/codec/src/Codec.ts:417-509 | for a child whose only key has a leading zero there is an answer of childDiscriminator, and the check rejects every answer |
| Consistency.CheckConsistency | packages/codec/src/Codec.ts:472-509 | exactly the inconsistent pairs are reported, in order, each with its first carried producer and a suggestion that is a route, or none when there is no route |
| Consistency.AllowedNextLayers | packages/codec/src/Codec.ts:417-448 | every reachable child once, with a discriminator that leads to it, then the catch-all |
| Consistency.ChildDiscriminator | packages/codec/src/Codec.ts:457-466 | a discriminator that leads to the child, or none exactly when there is no route |
| Retimer.MakeRetimer | packages/pcap/src/PcapEdit.ts:237-251 | the argument errors of the source, unknown units and bounds that are no integers included, and a fresh retimer otherwise |
| Retimer.Retimer.Apply | packages/pcap/src/PcapEdit.ts:252-286 | called packet by packet, the closure returns the closed-form time of each frame from the frames so far |
| Retimer.RetimingKeepsOrder | packages/pcap/src/PcapEdit.ts:267-286 | scale with factor >= 0 or constant interval, over any window and any ordered capture: the output is ordered, earlier frames are unchanged, the first frame of the window keeps its time, gaps from its last frame on are the original ones |
| Retimer.SetStartKeepsOrder | packages/pcap/src/PcapEdit.ts:258-261 | the order is kept and the first packet lands on the requested start, or the epoch |
| Retimer.ShiftKeepsOrderIff | packages/pcap/src/PcapEdit.ts:263-266 | a suffix shift keeps the order exactly when the first shifted frame stays at or after its predecessor |
| Retimer.ShiftBreaksOrder | packages/pcap/src/PcapEdit.ts:263-266 | a concrete capture of two frames that a shift puts out of order |
| Retimer.AcceptedIff | packages/pcap/src/PcapEdit.ts:237-251 | a request is accepted exactly when its bounds are whole numbers in order, its unit is known and its factor finite and not negative, and a start comes without a range |
| Retimer.ScaleMeans | packages/pcap/src/PcapEdit.ts:267-286 | inside the range a frame's distance from the first frame of it is scaled by the factor, to the nearest microsecond and not before the epoch |
| Retimer.EveryMeans | packages/pcap/src/PcapEdit.ts:267-286 | inside the range frames follow the first of it in steps of the whole microseconds of the interval in its unit |
| Retimer.ShiftMeans | packages/pcap/src/PcapEdit.ts:263-266 | from the first frame asked for on, frames move by the nearest microsecond of the delta in its unit |
| Retimer.StartMeans | packages/pcap/src/PcapEdit.ts:258-261 | every frame moves with the first to the start asked for, rounded down and not before the epoch |
| ColumnarStore.ColumnarIndexStore.Append | packages/analysis/src/stores/ColumnarIndexStore.ts:45-57 | the log grows by the stored row, whose number is returned |
| ColumnarStore.ColumnarIndexStore.Get | packages/analysis/src/stores/ColumnarIndexStore.ts:59-64 | the record of a retained number, else nothing |
| ColumnarStore.ColumnarIndexStore.Range | packages/analysis/src/stores/ColumnarIndexStore.ts:66-72 | the retained records of the range, clamped |
| ColumnarStore.ColumnarIndexStore.Scan | packages/analysis/src/stores/ColumnarIndexStore.ts:74-81 | the numbers of the accepted retained records, in order |
| ColumnarStore.ColumnarIndexStore.EvictOldest | packages/analysis/src/stores/ColumnarIndexStore.ts:91-104 | the window moves past the oldest rows; nothing else changes |
| ColumnarStore.ColumnarIndexStore.Grow | packages/analysis/src/stores/ColumnarIndexStore.ts:124-148 | capacity doubles, contents stay |
| ColumnarStore.Columns.CopyRows | packages/analysis/src/stores/ColumnarIndexStore.ts:91-148 | rows moved to the front, over themselves or into other columns, arrive unchanged |
| ColumnarStore.NumbersNeverReused | packages/analysis/src/stores/ColumnarIndexStore.ts:45-104 | under any history of appends and evictions a number keeps its record or loses it, and never gets another |
| ColumnarStore.StoredIff | packages/analysis/src/stores/ColumnarIndexStore.ts:45-57 | the columns keep a row as it is exactly when each number fits the width of its column |
| Conversation.KeyAndDirection | packages/analysis/src/indexer/ConversationKey.ts:14-40 | key and direction bit recover the flow |
| Conversation.FlowSurvives | packages/analysis/src/worker/SyntheticFrame.ts:9-38 | the flow of the layers rebuilt from key and direction is the flow of the frame |
| Conversation.TopProtocolIs | packages/analysis/src/indexer/ConversationKey.ts:43-48 | the top protocol is the id of the innermost protocol layer, for want of one of the innermost layer, and unknown only without layers |
| Conversation.FlowIs | packages/analysis/src/indexer/ConversationKey.ts:14-32 | a flow runs between the addresses of the first IP layer at the ports of the first transport layer, else between the stations of the first Ethernet layer |
| Conversation.KeyIsCanonical | packages/analysis/src/indexer/ConversationKey.ts:35-40 | two flows have one key exactly when they are equal or opposite; the lesser endpoint comes first |
| FrameIndexer.FrameIndexer.Add | packages/analysis/src/indexer/FrameIndexer.ts:27-46 | the row stored tells the frame, and both dictionaries stay functions of the frames added |
| FrameIndexer.FrameIndexer.ProtocolId | packages/analysis/src/indexer/FrameIndexer.ts:57-64 | ids are places in the list of names first seen |
| FrameIndexer.TooManyNames | packages/analysis/src/indexer/FrameIndexer.ts:48-64 | 65537 frames of as many protocols, one of them listed under another's name |
| FrameIndexer.NamesRecoveredIff | packages/analysis/src/indexer/FrameIndexer.ts:48-64 | every top protocol is found again from its 16-bit id if and only if there are at most 65536 names |
| FrameIndexer.KeysRecoveredIff | packages/analysis/src/indexer/FrameIndexer.ts:27-55 | every frame finds its key again from its hash column if and only if the hash separates the keys seen, keyless frames included |
| FrameIndexer.FirstKeyStays | packages/analysis/src/indexer/FrameIndexer.ts:27-46 | of several keys with one hash the first seen is the one recorded |
| PcapIndexBuilder.HandlersPair | packages/analysis/src/indexer/PcapIndexBuilder.ts:36-39 | the octets kept by one handler are those of the packet the other handler reports |
| PcapIndexBuilder.IndexedTells | packages/analysis/src/indexer/PcapIndexBuilder.ts:41-49 | what is indexed of a packet: the layers of its octets, its place, its captured length for both lengths, and its time exact to the microsecond |
| PcapIndexBuilder.Build | packages/analysis/src/indexer/PcapIndexBuilder.ts:31-60 | the build completes if and only if no write to its parser, which has frame handlers only, throws; then the frames indexed are those the parser reports on the chunks, else those of the chunks before the throwing one |
| PcapIndexBuilder.FetchIsStream | packages/analysis/src/worker/AnalysisWorkerCore.ts:42-52 | the columns of an indexed frame select, in the source and after any later growth, the octets that were decoded for it |
| DisplayFilter.MatchesIndexed | packages/analysis/src/filter/FilterExpression.ts:147-155 | false wins, then doubt, then true |
| DisplayFilter.VerdictIsRight | packages/analysis/src/filter/FilterExpression.ts:83-145 | on a regular frame a verdict from the columns is what the decoded layers say |
| DisplayFilter.ColumnsExactIff | packages/analysis/src/filter/FilterExpression.ts:39-145 | column verdicts are right for every term in scope exactly on frames with transport only above IP, not both transports, and arp innermost when present |
| DisplayFilter.IndexedIsRight | packages/analysis/src/filter/FilterExpression.ts:39-155 | hence a filter decided from the columns is decided as decoding would |
| DisplayFilter.DecidedIff | packages/analysis/src/filter/FilterExpression.ts:83-145 | a term is decided without decoding exactly when it is tcp, udp or arp, a selector of the four families, or any field term on a frame without a flow |
| DisplayFilter.SelectorsMean | packages/analysis/src/filter/FilterExpression.ts:53-72 | each selector asks for the source or destination field of the first layer of its family |
| DisplayFilter.EthWrongIff | packages/analysis/src/filter/FilterExpression.ts:66-137 | an Ethernet selector is decided wrongly from the columns exactly on IP frames that match it |
| DisplayFilter.EthSelectorMisses | packages/analysis/src/filter/FilterExpression.ts:66-137 | an IPv4 frame that matches eth.src when decoded and not by its columns |
| AnalysisWorker.ColumnsTell | packages/analysis/src/worker/AnalysisWorkerCore.ts:31-40 | the columns of a record give back key, top protocol, direction and position of its frame |
| AnalysisWorker.BuiltIsOnFile | packages/analysis/src/worker/AnalysisWorkerCore.ts:42-52 | every frame a build indexes can be fetched again, whatever is appended to the file |
| AnalysisWorker.RecordMatches | packages/analysis/src/worker/AnalysisWorkerCore.ts:84-97 | on a trusted index (hash separates the keys seen, file still holds the frames, frames regular, terms in scope) the verdict on a record is that of its decoded layers; on any index it is decoded exactly when the columns do not decide |
| AnalysisWorker.Filter | packages/analysis/src/worker/AnalysisWorkerCore.ts:78-98 | on a trusted index the handler returns exactly the retained numbers whose decoded layers match, in order |
| Statistics.ConversationsReducer.Update | packages/analysis/src/reducers/ConversationsReducer.ts:39-72 | the table stays that of the frames seen |
| Statistics.EndpointsReducer.Update | packages/analysis/src/reducers/EndpointsReducer.ts:30-61 | the table stays that of the frames seen |
| Statistics.ConversationMeans | packages/analysis/src/reducers/ConversationsReducer.ts:39-72 | an entry exists exactly for conversations that occurred, counts their frames and octets by direction, and its first and last times and numbers are the extremes reached |
| Statistics.ConversationNamed | packages/analysis/src/reducers/ConversationsReducer.ts:41-62 | an entry carries the protocol and endpoints of the first flow with its key |
| Statistics.EndpointMeans | packages/analysis/src/reducers/EndpointsReducer.ts:30-61 | an entry exists exactly for addresses that occurred and counts what each sent and received |
| BuiltinScans.ComputeConversations | packages/analysis/src/worker/BuiltinScans.ts:16-59 | the scan of the retained rows |
| BuiltinScans.ComputeEndpoints | packages/analysis/src/worker/BuiltinScans.ts:71-99 | the scan of the retained rows |
| BuiltinScans.ScanInStep | packages/analysis/src/worker/BuiltinScans.ts:16-59 | each hash's summary is its key's entry in the reducer's table, and every entry has its hash |
| BuiltinScans.EndpointsAgree | packages/analysis/src/worker/BuiltinScans.ts:71-99 | the scanned endpoint table is the reducer's |
| FrameBatch.MaterializeFrame | packages/analysis/src/worker/AnalysisWorkerCore.ts:42-52 | a frame for exactly the retained numbers; on a sound index it is the frame indexed, decoded again and projected |
| FrameBatch.GetFrameBatch | packages/analysis/src/worker/AnalysisWorkerCore.ts:111-128 | on a sound index, the retained frames of the range, decoded or synthesized from the columns |
| FrameBatch.Replay | packages/analysis/src/Analysis.ts:123-137 | on a sound index the reducers are fed the batch over all numbers, whatever the batch size cuts |
| FrameBatch.ProjectionKeepsFlow | packages/analysis/src/worker/AnalysisWorkerCore.ts:47-51 | dropping the layers a reducer does not need keeps the flow |
| FrameBatch.ProjectedHas | packages/analysis/src/worker/AnalysisWorkerCore.ts:47-51 | a layer is kept exactly when its id is needed |
| FrameBatch.BatchIs | packages/analysis/src/worker/AnalysisWorkerCore.ts:111-128 | a batch holds the retained numbers of its range, each once and in order |
| FrameBatch.BatchSamples | packages/analysis/src/worker/AnalysisWorkerCore.ts:111-128 | decoded, projected or synthesized, the batch gives the reducers the same samples: those of the retained frames |
| FrameBatch.StatisticsAgree | packages/analysis/src/worker/BuiltinScans.ts:16-99 | over whatever an index retains, column scans, reducers over decoded frames and reducers over synthesized frames give one conversation table and one endpoint table |
| WatchPump.NextKeeps | packages/analysis/src/worker/AnalysisWorkerCore.ts:144-174 | every growth, tick, size answer, read answer and decoded frame keeps the invariant of the pump |
| WatchPump.AlwaysInv | packages/analysis/src/worker/AnalysisWorkerCore.ts:144-191 | the invariant holds at every moment of every schedule |
| WatchPump.TailingIsSafe | packages/analysis/src/worker/AnalysisWorkerCore.ts:144-191 | at most one body runs; when idle the position covers the size at the last tick unless a read since the last pass began came back empty; the store holds the frames pushed, the last maxFrames retained; between drains these are the frames reported on the octets consumed |
| WatchPump.PassReadsIff | packages/analysis/src/worker/AnalysisWorkerCore.ts:159-174 | an idle pump has read as far as its last pass was told to if and only if no read of that pass came back empty |
| WatchPump.TickKeptIff | packages/analysis/src/worker/AnalysisWorkerCore.ts:159-174 | an idle pump has read as far as the file went at the last tick if and only if no read of the last pass came back empty while the position was short of that |
| WatchPump.AnsweredTicksAreKept | packages/analysis/src/worker/AnalysisWorkerCore.ts:159-174 | while no read comes back empty, as on a file that only grows, an idle pump has read all there was at the last tick |
| WatchPump.StarvedIff | packages/analysis/src/worker/AnalysisWorkerCore.ts:159-174 | the excuse is exactly that a read of the last pass came back empty |
| WatchFates.EmptyReadLosesTick | packages/analysis/src/worker/AnalysisWorkerCore.ts:159-174 | a schedule of three steps that ends idle with an octet unread |
| WatchPump.TailingEqualsBatch | packages/analysis/src/worker/AnalysisWorkerCore.ts:144-191 | without undersized blocks the watch never dies and its frames are those of a batch build over the octets consumed, however that build is cut |
| WatchFates.StuckIff | packages/analysis/src/worker/AnalysisWorkerCore.ts:159-187 | some schedule leaves a watch of a file dead if and only if its parser, which has frame handlers only, reaches a block shorter than the fields it always reads |
| WatchFates.ReadAll | packages/analysis/src/worker/AnalysisWorkerCore.ts:144-191 | answered in full after one tick, a watch ends dead or with all octets read |
| WatchFates.ShortInterfaceKills | packages/analysis/src/worker/AnalysisWorkerCore.ts:159-187 | three steps that kill a watch of a section header and an interface description block of 12 octets each |
| WatchFates.ShorterNeverKills | packages/analysis/src/worker/AnalysisWorkerCore.ts:159-187 | no schedule kills a watch of fewer octets, the 12-octet section header block among them |
| WatchPump.StuckForever | packages/analysis/src/worker/AnalysisWorkerCore.ts:159-174 | a dead watch stays dead: later ticks change nothing |
| TailedIndex.RowAsWatched | packages/analysis/src/worker/AnalysisWorkerCore.ts:144-157 | a row of a built index is the row the watch stores for the same frame, protocol id included |
| TailedIndex.TailedIsOnFile | packages/analysis/src/worker/AnalysisWorkerCore.ts:42-52 | at every moment the columns of each row a watch has stored select, in the file as it has grown, the octets decoded for that frame |
| TailedIndex.TailedStoreIsBatch | packages/analysis/src/worker/AnalysisWorkerCore.ts:144-174 | between drains the watch's store is the store of an index built over the octets consumed, cut back to the last maxFrames rows |

## Left out

- Native capture, replay, pipes, worker channels, read backends and gzip: process and library plumbing. A source is a byte sequence that grows by appending.
- Ajv validation of encode inputs and the handlers that rewrite fields after a layer: fields are plain typed records.
- Hex, base64 and Latin-1 strings of field values: modelled as the octets they stand for; hex fields of another width than the schema's are not encoded.
- Floating-point rounding, NaN and the 2^53 limit: times and scale factors are exact reals, positions exact integers; `BitFields.NarrowIsExact` covers the narrow bit path. Intervals, shifts and start times given to the retimer are finite.
- JavaScript's `Number()` and `toLowerCase()` in dispatch: parameters with the few laws the proofs need (`Lawful`).
- `hash32`: a parameter; what it has to satisfy on the keys seen is exactly `FrameIndexer.Separated`.
- Codec decoding of a frame: a parameter function in the worker, as its results only enter through their layers.
- LZ4 checksums are skipped as in the code; dictionaries and linked blocks are not decoded by it, so `Lz4Inverse.FrameInverse` is about independent blocks.
- PcapWriter.PcapWriter.Write: frames of 2^32 - 36 octets or more make the generator throw and are excluded by its precondition.
- WriterReports.ReportsMatch: is about new files; for a file appended to, the reports continue from its size and are not compared with a parse of unknown content.
- Consistency.SuggestionAccepted: sufficient for any child; exact for a child with one way to it (`Consistency.SuggestionAcceptedIff`), as a key that is not written back may otherwise be made up for by another key of the child.
- Codec.CodecTables.constructor: custom codecs that replace built-in ones are taken as already merged into the registration list.
- Guards (`MATCH`) of headers: any predicate on the candidate; what a particular header accepts is not modelled.
- PacketBuffer.PacketBuffer.WriteBits: does not model a field that sticks out of its window, where the narrow path computes with binary fractions; every caller states both as constants inside the window.
- Byte ranges for dissection, summaries, progress callbacks and UI metadata.
- Babel, GENEVE, GLBP, collectd, DNS: the fields of other layers they look up (the UDP length) enter as a parameter; leaf headers that are a fixed header plus a hex body, and text protocols, would add only easy members.
- Diameter, GTP and DHCP: their decoders drop or re-read octets on malformed input, so no total round trip exists.
- parseFilter: filter terms start out parsed; `eth.*` selectors are outside `DisplayFilter.InScope`, their exact condition being `DisplayFilter.EthWrongIff`.
- DnsLayout.CraftedComesBack: sufficient for a whole message; exact for its names (`CraftedNames.CraftedNameIff`).
- TcpReports.IdealReports: endpoints that contain the separator `|` of the keys are excluded, since then two streams may share a key.
- BuiltinScans.ComputeConversations: result lists are sets, so their order (first occurrence) is not stated; the same for endpoints and the reducers' results.
- ColumnarStore.ColumnarIndexStore.Grow: copies row by row where the code copies column by column; the arrays end up the same.
- WatchPump: async closures are a step relation with one step per await. A second `watch` call on the same worker and a watch that starts on a store filled by `open` are not modelled, nor is a rejected size, read or decode, which like an exception of the parser leaves `pumping` set for good.
- TcpStreamReducer.TcpStreamReducer.Update: sequence numbers and lengths are integers, as the decoders produce them.
