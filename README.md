# RExOS DAC driver and IP layer, modelled in Dafny

This project models two parts of the RExOS embedded RTOS:

- **The STM32 DAC driver** (`drv/stm32/stm32_dac.c`). A DAC has two output
  channels. Each channel is opened in one of three modes: a fixed level, a
  stream of sample blocks written by client processes, or a waveform that
  repeats on its own. In stream mode the driver keeps a fifo of two halves.
  A timer drives DMA out of it, and a DMA half-transfer interrupt refills the
  half just played from the block being written. A channel record counts the
  halves still queued (`cnt`), tracks the half in use, and holds the block in
  flight.
- **The IPv4 layer of the TCP/IP stack** (`midware/tcpip/ip.c`). This covers
  the header field macros, the header checksum, building the header of an
  outgoing frame in place, the acceptance checks for an incoming frame and
  the removal of its header, reserving header room in an I/O buffer, and the
  local-address requests.

The model has one build configuration: STM32F1, `DAC_STREAM`, `DAC_MANY`,
two user channels, no dual-channel mode, `DAC_BOFF` = 0, a DMA fifo of 512
16-bit samples, `IP_CHECKSUM` on, and `INVALID_HANDLE` = 0.

Modules:

- `Common`: bytes, 32-bit unsigned values, `Option`, and splicing bytes
  into a sequence.
- `DacSpec`: the driver as pure transitions on a value view. A `Step` is
  the new state of both channel records, `DAC->CR` and the DAC clock, plus
  the ordered effects and the reported error. Effects are pin, timer, DMA
  clock and IRQ requests, data register stores and write completions.
- `DacDriver`: the driver as it runs.
  - `Channel` is the per-channel record. Its fifo is an `array`.
  - `Dac` holds both records, `DAC->CR`, the clock bit and a ghost log of
    effects.
  - Every method is proved to take its object from `View()` to the state
    its `DacSpec` function gives.
- `DacProperties`: what the transitions guarantee, and how many completions
  a block gets over a run of interrupts.
- `IpHeader`: the header accessors, the checksum and the receive checks,
  each as a function. The as-written and the corrected rules are both here.
  Transmit stores the header as written, with the single-fold checksum.
  Receive uses the corrected checks. They accept exactly the frames the code
  accepts, and drop the frames the code mishandles (the two Findings below).
- `IpProperties`: lemmas on the header functions, including the transmit to
  receive round trip.
- `IpStack`: the operations that work in place on the frame buffer. An
  `IoBuffer` is a window into an `array<byte>`, and `IpLayer` holds the
  local address and the identification counter.
  - Tx writes the header in front of the payload.
  - Rx checks the frame and moves the payload down over a long header.
  - Each is proved against the `IpHeader` functions.
  - AllocateIo moves the window 20 bytes up and Tx moves it 20 bytes back
    down, so a transmitted frame starts where the stack granted the buffer.

Where the driver's documented design and its code disagree, the model follows
the code, and a lemma states what the code does:

- The single-half priming copy of a write fills half `half`, not `!half`
  (stm32_dac.c:305; `DacProperties.SingleHalfPrimesCurrentHalf`).
- A write whose block is used up by the priming copy is completed at once,
  and the block stays in flight. The interrupt that drains it completes it a
  second time (`DacProperties.ShortBlockCompletesTwice`).
- A block of less than half a fifo lets `cnt` reach -1. Playback does not
  resume on the next write (`DacProperties.SubHalfBlockStalls`).
- Open sets `DAC->CR` to 0 first, which switches off the other channel's
  bits (`DacProperties.OpenClearsOtherChannelBits`).
- Open does not report a failed fifo allocation: it leaves the channel
  closed (`DacProperties.OpenAllocFailure`).
- Close does not release the fifo (`DacProperties.OpenCloseKeepsFifo`).
- Set-level stores 0 whatever value is asked (`DacProperties.SetLevelIgnoresValue`).
- Set-level and wave check only that the channel is open, not its mode, so a
  wave request overwrites the fifo of a streaming channel
  (`DacProperties.LevelAndWaveIgnoreMode`).
- A write adds all of the block's halves to `cnt`, including the ones the
  priming copy already queued (`DacProperties.WriteCountsAndStart`).

## Model

| member | source | states |
|---|---|---|
| IpHeader.IpChecksum | midware/tcpip/ip.c:173-181 | the checksum as written (one fold) is a 16-bit value |
| IpHeader.InternetChecksum | midware/tcpip/ip.c:173-181 | the corrected checksum (carries folded until none is left) is a 16-bit value |
| IpHeader.Version | midware/tcpip/ip.c:19 | the version is the 4-bit high nibble of byte 0 |
| IpHeader.Ihl | midware/tcpip/ip.c:20 | the IHL is the 4-bit low nibble of byte 0 |
| IpHeader.TotalLength | midware/tcpip/ip.c:21 | the total length is a 16-bit value |
| IpHeader.Id | midware/tcpip/ip.c:22 | the identification is a 16-bit value |
| IpHeader.Flags | midware/tcpip/ip.c:23 | the flags are the top three bits of byte 6, left in place |
| IpHeader.FrameOffset | midware/tcpip/ip.c:24 | the fragment offset is a 13-bit value |
| IpHeader.HeaderChecksum | midware/tcpip/ip.c:27 | the stored checksum is a 16-bit value |
| IpHeader.MoreFragments | midware/tcpip/ip.c:213 | the MF test holds exactly when bit 5 of byte 6 is set |
| IpHeader.FoldOnce | midware/tcpip/ip.c:179 | the code's fold is 16 bits; it is the sum of the halves when that makes no carry, and one less than the RFC 1071 fold of a 32-bit sum when it does |
| IpHeader.FoldCarries | midware/tcpip/ip.c:179 | the RFC 1071 fold is a 16-bit value |
| IpHeader.Header | midware/tcpip/ip.c:122-139 | the header `ip_tx` lays out is 20 bytes |
| IpHeader.TxHeader | midware/tcpip/ip.c:122-143 | the corrected outgoing header, carrying the RFC 1071 checksum, is 20 bytes |
| IpHeader.TxHeaderAsWritten | midware/tcpip/ip.c:122-143 | the header `ip_tx` stores, with the single-fold checksum, is 20 bytes |
| IpHeader.RxCheckAsWritten | midware/tcpip/ip.c:184-245 | as written, an accepted frame has a header of at least 20 bytes within its total length and the bytes received, is for the local address and checksums to zero; the checksum reads past the frame only when IHL exceeds the bytes received, and the move underflows only when IHL exceeds the total length |
| IpHeader.RxCheck | midware/tcpip/ip.c:184-243 | an accepted frame has a header of 20 to 60 bytes that is no longer than the total length, which is no longer than the bytes received |
| IpProperties.FoldCarriesCongruent | midware/tcpip/ip.c:179 | folding the carries keeps the sum modulo 0xffff and maps only 0 to 0 |
| IpProperties.WordsSumBound | midware/tcpip/ip.c:177-178 | the sum of n 16-bit words is at most n * 0xffff |
| IpProperties.Sum32Exact | midware/tcpip/ip.c:175-178 | the 32-bit accumulator never wraps on a buffer shorter than 128 KiB |
| IpProperties.WordsSumPrefix | midware/tcpip/ip.c:177-178 | the sum of n words depends only on the first 2n bytes |
| IpProperties.WordsSumUpdate | midware/tcpip/ip.c:142-143 | storing two bytes into word i changes the sum by the change in that word |
| IpProperties.ChecksumIgnoresOddByte | midware/tcpip/ip.c:177 | both checksums ignore a trailing odd byte (`size >> 1` words) |
| IpProperties.SingleFoldAgreesWithoutCarry | midware/tcpip/ip.c:179 | the one-fold checksum equals the RFC 1071 checksum when the fold makes no second carry |
| IpProperties.SingleFoldAgreesOnZero | midware/tcpip/ip.c:173-181 | on at most 60 bytes the one-fold checksum is zero exactly when the RFC 1071 one is, so the receive test is unaffected |
| IpProperties.HiLo | midware/tcpip/ip.c:126-130 | the two stored bytes are the big-endian low 16 bits of the value |
| IpProperties.HeaderChecksumBytes | midware/tcpip/ip.c:141-143 | the finished header differs from its zero-checksum form only in bytes 10-11 |
| IpProperties.HeaderReadsBack | midware/tcpip/ip.c:18-28 | every header macro reads back what the header was built from: version 4, IHL 5, no flags or offset, TTL 255, the protocol, both addresses, and the low 16 bits of length, id and checksum |
| IpProperties.TxHeaderFields | midware/tcpip/ip.c:122-143 | every field of the header `ip_tx` stores: version 4, IHL 5, total length size+20 and id modulo 2^16, no flags or offset, TTL 255, the protocol, both addresses, and the single-fold checksum of the zero-checksum header; the corrected header differs only in bytes 10-11, which hold the RFC 1071 checksum |
| IpProperties.ChecksumCompletesSum | midware/tcpip/ip.c:141-143 | adding the complement of the folded sum makes the folded total 0xffff |
| IpProperties.TxHeaderWordsSum | midware/tcpip/ip.c:141-143 | the corrected header's word sum is the zero-checksum sum plus its checksum |
| IpProperties.TxHeaderChecksumVerifies | midware/tcpip/ip.c:141-143 | a header with its RFC 1071 checksum checks to zero |
| IpProperties.FramePrefix | midware/tcpip/ip.c:119-120 | the first 20 bytes of a header-plus-payload frame are the header, and the rest is the payload |
| IpProperties.FrameFields | midware/tcpip/ip.c:18-28 | the header macros read the same values from a frame as from its first 20 bytes |
| IpProperties.HeaderAccepted | midware/tcpip/ip.c:184-243 | a frame with a valid plain header for the local address is accepted, and its payload is delivered |
| IpProperties.TxRxRoundTrip | midware/tcpip/ip.c:115-243 | a frame with the corrected header for dst is accepted by the receiver at dst, which delivers the same payload, source and protocol |
| IpProperties.TxAsWrittenRoundTrip | midware/tcpip/ip.c:115-243 | when the header sum folds without a second carry, the header `ip_tx` stores is the corrected one and the frame survives the round trip |
| IpProperties.RxCheckCharacterized | midware/tcpip/ip.c:189-231 | a frame is dropped if and only if one of the listed checks fails; an accepted frame carries its header size, total length, source and protocol |
| IpProperties.RxCorrectionConservative | midware/tcpip/ip.c:196-241 | the corrected checks accept exactly the frames the code accepts; every frame the code mishandles is dropped as HeaderPastLength |
| IpProperties.HeaderPastLengthUnderflows | midware/tcpip/ip.c:237-240 | any frame whose IHL exceeds its total length but passes every other check reaches the underflowing move as written, and is dropped when corrected |
| IpProperties.RxUnderflowExample | midware/tcpip/ip.c:237-240 | a concrete 24-byte frame reaches the underflowing move as written, and is dropped when corrected |
| IpProperties.ExampleWrittenHeader | midware/tcpip/ip.c:122-143 | the exact bytes the code stores for one example header, with checksum 0xffff |
| IpProperties.AsWrittenRejectsOwnHeader | midware/tcpip/ip.c:173-181 | the code's receive check drops that header, which its own transmit built |
| IpProperties.CorrectedAcceptsExampleHeader | midware/tcpip/ip.c:184-243 | the same header checksummed as RFC 1071 asks is accepted |
| IpProperties.IpU32RoundTrip | midware/tcpip/ip.c:65-73 | the u32 view and the octet view of an address are inverses |
| IpProperties.OctetsRoundTrip | midware/tcpip/ip.c:67 | reading the octets as a little-endian word and splitting it again gives the octets back |
| IpProperties.WordRoundTrip | midware/tcpip/ip.c:72 | splitting a word into octets and reading them back gives the word |
| IpStack.SumWords | midware/tcpip/ip.c:175-178 | the loop computes the 32-bit sum of the buffer's words |
| IpStack.IpChecksumAt | midware/tcpip/ip.c:173-181 | the single-fold checksum of the buffer bytes, as `ip_tx` stores it |
| IpStack.InternetChecksumAt | midware/tcpip/ip.c:173-181 | the RFC 1071 checksum of the buffer bytes, as the receive check tests it |
| IpStack.MoveDown | midware/tcpip/ip.c:239 | `memmove` to a lower address: the destination holds the old source bytes, and nothing else changes |
| IpStack.Clear | midware/tcpip/ip.c:122 | the header bytes are zeroed, and nothing else changes |
| IpStack.StoreIp | midware/tcpip/ip.c:137-139 | an address is stored at the offset, and nothing else changes |
| IpStack.StoreFixedFields | midware/tcpip/ip.c:122-135 | bytes 0-11 hold the fixed fields and a zero checksum, and nothing outside the header changes |
| IpStack.FillHeader | midware/tcpip/ip.c:122-139 | the 20 bytes are the zero-checksum header, and nothing else changes |
| IpStack.StripHeader | midware/tcpip/ip.c:234-243 | the frame becomes the payload bytes `[hdr_size, len)`, starting 20 bytes in, and nothing outside it changes |
| IpStack.IpLayer.constructor | midware/tcpip/ip.c:49-53 | the address is 0.0.0.0 and id is 0 |
| IpStack.IpLayer.Init | midware/tcpip/ip.c:49-53 | the address is 0.0.0.0 and id is 0 |
| IpStack.IpLayer.Request | midware/tcpip/ip.c:65-97 | IP_SET stores the address and asks for a reply; IP_GET posts the address with no reply; other commands change nothing |
| IpStack.IpLayer.AllocateIo | midware/tcpip/ip.c:99-107 | when the stack grants a buffer its window moves 20 bytes up; otherwise nothing changes and no buffer is returned |
| IpStack.IpLayer.Tx | midware/tcpip/ip.c:115-146 | the window grows 20 bytes down over TxHeaderAsWritten, the header with the code's single-fold checksum, the payload is kept, id grows by one, and no other byte changes |
| IpStack.IpLayer.Check | midware/tcpip/ip.c:189-231 | the verdict is RxCheck of the received frame |
| IpStack.IpLayer.Rx | midware/tcpip/ip.c:184-245 | a dropped frame is released unchanged; an accepted one is delivered with its source and protocol, and its window becomes the payload |
| DacSpec.IsrNum | drv/stm32/stm32_dac.c:74-75 | vector 58 is channel 0, and any other vector is channel 1 |
| DacSpec.OpenChan | drv/stm32/stm32_dac.c:141-199 | an opened stream or wave channel has a fifo of 1024 bytes |
| DacSpec.Chunk | drv/stm32/stm32_dac.c:297-306 | the copy reads n bytes, exactly the block's bytes from the offset when the block holds them |
| DacSpec.OpenCr | drv/stm32/stm32_dac.c:138-188 | after open the other channel's half of `DAC->CR` is 0, and the channel's own half is EN for a level channel, 0 after a failed allocation, and EN with DMAEN otherwise |
| DacSpec.OpenSpec | drv/stm32/stm32_dac.c:112-200 | open keeps every stream or wave channel supplied with a sized fifo |
| DacSpec.FlushChan | drv/stm32/stm32_dac.c:203-214 | flush drops the block and changes nothing else in the record; it stops the timer first, then cancels the block if there was one, and makes no other effect |
| DacSpec.FlushSpec | drv/stm32/stm32_dac.c:203-214 | flush keeps the fifo invariant |
| DacSpec.CloseChan | drv/stm32/stm32_dac.c:230-251 | close keeps the fifo invariant |
| DacSpec.CloseSpec | drv/stm32/stm32_dac.c:217-264 | close keeps the fifo invariant of both channels |
| DacSpec.UnitsLeft | drv/stm32/stm32_dac.c:294-309 | `cnt_left` stays within 32 bits and never exceeds the block's halves, except that one half copied out of a block of none wraps it to 2^32-1 |
| DacSpec.Primed | drv/stm32/stm32_dac.c:296-308 | only the fifo and the source pointer change; an idle channel with a block of two halves gets both halves from the block and the pointer moves 1024; otherwise, under two halves queued, half `half` gets the next 512 block bytes, the other half is untouched and the pointer moves 512; with two queued nothing changes; the fifo keeps its size |
| DacSpec.WriteChan | drv/stm32/stm32_dac.c:279-321 | a write never changes the channel's mode, open state, sample rate or fifo presence |
| DacSpec.StartChan | drv/stm32/stm32_dac.c:290-321 | an admitted write never changes the channel's mode, open state, sample rate or fifo presence |
| DacSpec.WriteSpec | drv/stm32/stm32_dac.c:267-322 | a write never reports through `error()`: every outcome is a completion |
| DacSpec.IsrChan | drv/stm32/stm32_dac.c:71-109 | the interrupt keeps the fifo and the channel's mode, open state and sample rate |
| DacSpec.IsrSpec | drv/stm32/stm32_dac.c:71-109 | the interrupt leaves its channel open in stream mode |
| DacSpec.SetLevelSpec | drv/stm32/stm32_dac.c:325-338 | set-level changes no driver state |
| DacSpec.WaveSpec | drv/stm32/stm32_dac.c:340-358 | a wave request keeps the fifo invariant |
| DacSpec.RequestSpec | drv/stm32/stm32_dac.c:360-403 | every request keeps the fifo invariant |
| DacSpec.InitSpec | drv/stm32/stm32_dac.c:405-413 | after init no channel is open and none has a fifo |
| DacDriver.Channel.CopyIn | drv/stm32/stm32_dac.c:297-306 | the `memcpy` from the source pointer writes n block bytes at the offset, and nothing else |
| DacDriver.Channel.Flush | drv/stm32/stm32_dac.c:203-214 | the record becomes FlushChan of the old one, with the same fifo |
| DacDriver.Channel.Open | drv/stm32/stm32_dac.c:141-199 | the record becomes OpenChan of the old one; a fifo is kept or newly allocated |
| DacDriver.Channel.Close | drv/stm32/stm32_dac.c:230-251 | the record becomes CloseChan of the old one |
| DacDriver.Channel.Prime | drv/stm32/stm32_dac.c:294-308 | the record becomes Primed of the old one, and the units left are UnitsLeft |
| DacDriver.Channel.Write | drv/stm32/stm32_dac.c:279-321 | the record becomes WriteChan of the old one |
| DacDriver.Channel.Load | drv/stm32/stm32_dac.c:285-292 | the record takes the block, process and size, the source pointer is the block's first byte, and nothing else changes |
| DacDriver.Channel.Start | drv/stm32/stm32_dac.c:290-321 | the record becomes StartChan of the old one |
| DacDriver.Channel.Isr | drv/stm32/stm32_dac.c:81-108 | the record becomes IsrChan of the old one |
| DacDriver.Channel.Fill | drv/stm32/stm32_dac.c:355 | the fifo holds the generated wave |
| DacDriver.Dac.Init | drv/stm32/stm32_dac.c:405-413 | the state becomes InitSpec of the old one |
| DacDriver.Dac.Open | drv/stm32/stm32_dac.c:112-200 | state, effects and error are those of OpenSpec |
| DacDriver.Dac.Configure | drv/stm32/stm32_dac.c:125-199 | an admitted open sets the record, `DAC->CR` and the clock as OpenSpec does |
| DacDriver.Dac.OpenRecord | drv/stm32/stm32_dac.c:141-199 | only the channel's record changes, to OpenChan |
| DacDriver.Dac.Flush | drv/stm32/stm32_dac.c:203-214 | state and effects are those of FlushSpec |
| DacDriver.Dac.Close | drv/stm32/stm32_dac.c:217-264 | state, effects and error are those of CloseSpec |
| DacDriver.Dac.Shutdown | drv/stm32/stm32_dac.c:230-263 | an admitted close updates the record, `DAC->CR` and the clock as CloseSpec does |
| DacDriver.Dac.Write | drv/stm32/stm32_dac.c:267-322 | state and effects are those of WriteSpec |
| DacDriver.Dac.Isr | drv/stm32/stm32_dac.c:71-109 | state and effects are those of IsrSpec |
| DacDriver.Dac.SetLevel | drv/stm32/stm32_dac.c:325-338 | state, effects and error are those of SetLevelSpec |
| DacDriver.Dac.Wave | drv/stm32/stm32_dac.c:340-358 | state, effects and error are those of WaveSpec |
| DacDriver.Dac.Request | drv/stm32/stm32_dac.c:360-403 | state, effects, error and the reply flag are those of RequestSpec |
| DacProperties.OpenRejections | drv/stm32/stm32_dac.c:114-123 | open fails with InvalidParams for a bad channel and AlreadyConfigured for an open one, changing nothing; otherwise it does not fail |
| DacProperties.StreamOpenResets | drv/stm32/stm32_dac.c:125-199 | a stream open resets block, cnt and half, opens the channel with a zeroed 1024-byte fifo, enables EN and DMAEN, and leaves the other record alone |
| DacProperties.OpenAllocFailure | drv/stm32/stm32_dac.c:138-145 | a failed fifo allocation leaves the channel closed with `DAC->CR` 0 and the clock on, and reports no error |
| DacProperties.OpenClearsOtherChannelBits | drv/stm32/stm32_dac.c:138 | after open, the other channel's half of `DAC->CR` is 0 while its record still says open |
| DacProperties.CloseRejections | drv/stm32/stm32_dac.c:219-228 | close fails with InvalidParams or NotConfigured, changing nothing, if and only if the channel is bad or closed |
| DacProperties.ClearHalfClearsExactly | drv/stm32/stm32_dac.c:245 | the mask clears the channel's 16 bits and keeps the other 16 |
| DacProperties.CloseReleasesChannel | drv/stm32/stm32_dac.c:230-260 | close marks the channel closed, clears only its half of `DAC->CR`, turns the clock off exactly when the other channel is closed, and disables the pin last |
| DacProperties.CloseCancelsInFlight | drv/stm32/stm32_dac.c:233-237 | closing a stream channel cancels its block in flight exactly once; other modes complete nothing |
| DacProperties.OpenCloseKeepsFifo | drv/stm32/stm32_dac.c:138-251 | after open and close the fifo is still allocated and `DAC->CR` is 0 |
| DacProperties.WriteInProgress | drv/stm32/stm32_dac.c:280-284 | with more than two halves queued, a write is refused as in progress and the state is unchanged |
| DacProperties.WriteMapFailure | drv/stm32/stm32_dac.c:285-289 | a block that cannot be mapped is completed with the mapping error, and nothing is queued |
| DacProperties.IdleWritePrimesBothHalves | drv/stm32/stm32_dac.c:297-302 | on an idle channel a block of two halves or more fills the whole fifo with its first 1024 bytes |
| DacProperties.SingleHalfPrimesCurrentHalf | drv/stm32/stm32_dac.c:303-308 | a single-half priming copy writes the first 512 block bytes into half `half`, not `!half`, leaves the other half and `half` unchanged, and sets the pointer to 512 |
| DacProperties.WriteCountsAndStart | drv/stm32/stm32_dac.c:290-321 | cnt grows by all the block's halves; the timer starts if and only if the channel was idle; the block completes at once if and only if no unit is left |
| DacProperties.UnitsLeftZero | drv/stm32/stm32_dac.c:294-309 | no unit is left exactly in three (cnt, units) cases; a block under half a fifo wraps `cnt_left` to 2^32-1 |
| DacProperties.IsrStep | drv/stm32/stm32_dac.c:81-100 | one interrupt toggles half, counts down, refills the released half from the next 512 bytes or completes the block once, and stops the timer when cnt reaches 0 or below |
| DacProperties.IdleIsrsCompleteNothing | drv/stm32/stm32_dac.c:84 | with no block in flight, no run of interrupts completes anything |
| DacProperties.DrainCompletesOnce | drv/stm32/stm32_dac.c:84-95 | a block in flight is completed exactly once, with its size, by any run of at least max(1, cnt - 1) interrupts |
| DacProperties.LongBlockCompletesOnce | drv/stm32/stm32_dac.c:84-321 | a block of three or more halves on an idle channel is completed exactly once over its write and drain |
| DacProperties.ShortBlockCompletesTwice | drv/stm32/stm32_dac.c:84-313 | a block of one or two halves on an idle channel is completed twice |
| DacProperties.SubHalfBlockStalls | drv/stm32/stm32_dac.c:82-321 | a block under half a fifo starts the timer without completing; the next interrupt completes it, leaves cnt at -1, and the next write does not restart the timer |
| DacProperties.FlushCancelsOnce | drv/stm32/stm32_dac.c:203-214 | flush stops the timer first, drops the block, and cancels it exactly once if there was one; cnt, half and the fifo are kept |
| DacProperties.NothingCompletesAfterFlush | drv/stm32/stm32_dac.c:84-210 | after a flush, no run of interrupts completes anything |
| DacProperties.FlushedBacklogRefusesWrites | drv/stm32/stm32_dac.c:203-284 | a flush with more than two halves queued leaves every later write refused as in progress |
| DacProperties.SetLevelIgnoresValue | drv/stm32/stm32_dac.c:337 | set-level does the same thing for every value, and stores 0 |
| DacProperties.LevelAndWaveIgnoreMode | drv/stm32/stm32_dac.c:325-358 | set-level and wave give the same error, effects and fifo whatever the open channel's mode, so a streaming channel's fifo is overwritten by a wave |
| DacProperties.WaveZeroOnlyStops | drv/stm32/stm32_dac.c:352-353 | amplitude 0 only stops the timer |
| DacProperties.WaveRegenerates | drv/stm32/stm32_dac.c:352-357 | otherwise the fifo is regenerated and the timer restarts at samplerate*512 modulo 2^32; nothing else changes |
| DacProperties.RequestPostsUnlessWrite | drv/stm32/stm32_dac.c:360-403 | every request but a write asks for a reply; an unknown command fails with NotSupported; a write never reports an error |

## Left out

- Register-level hardware set-up is reduced to ordered effects: GPIO pin modes, the DMA channel registers (CPAR, CMAR, CNDTR, CCR, IFCR) and NVIC priorities. No peripheral is simulated.
- `sleep_us(DAC_TWAKEUP)` is left out. It is a delay and has no effect on state.
- The `DAC_DEBUG` underflow message, `STM32_DAC_UNDERFLOW_DEBUG`, `IPC_GET_INFO`, `ip_info` and `ip_print` are left out. They are diagnostics built only under debug options.
- The STM32L0, single-channel and dual-channel builds are left out. One configuration is modelled.
- Interrupts run as steps between requests, never in the middle of one. The `__disable_irq` critical sections are therefore not modelled.
- `malloc` is not modelled. Its success is a parameter, and a new fifo is taken to be zeroed.
- `block_open`, `wave_gen` and `get_last_error` are foreign calls. Their results are parameters (`Mapping`, `Env`).
- The channel record's field types come from `stm32_dac.h`, which is not part of this model. `cnt` is taken to be a signed integer (the interrupt tests `cnt <= 0`, stm32_dac.c:97), and `fifo` a byte pointer, modelled as an optional 1024-byte sequence.
- `DacSpec.Chunk`: a copy that reads past the end of the mapped block gets zeros. In C those bytes are whatever memory follows the block.
- `HAL_ITEM` / `HAL_HANDLE` handle encoding is left out. A request carries the decoded channel number.
- `DacSpec.FlushSpec` requires a channel number below 2. The source indexes the channel array without checking, which is undefined behaviour in C.
- `DacSpec.WriteChan` and `DacSpec.WaveSpec` require a fifo wherever the code copies into one. A copy into the NULL fifo of a level-mode channel is undefined behaviour.
- `DacDriver.Dac.Configure` stores `DAC->CR` once, with its final value. The code stores it three times (stm32_dac.c:138, 149, 188), and nothing reads it in between.
- `route_tx`, `ip_process`, `icmp_rx`, `tcpip_allocate_io` and `tcpip_release_io` are left out. They belong to other modules. Rx's outcome stands in for the release or the delivery, and AllocateIo takes the grant as a parameter.
- `tcpip_ip` is left out. It only returns the address, which is the `ip` field here.
- `IpStack.IpLayer.Tx`: `id` is an unbounded counter rather than 16 bits. The header stores only its low 16 bits, so the bytes sent are the same.
- `IpStack.IpLayer.Tx`: the overflow of `io->size` past 32 bits is not modelled. Buffers are far smaller.
- `IpHeader.RxCheckAsWritten`: the checksum reading past the received bytes (IHL larger than the frame) is the outcome `ChecksumPastFrame`. The bytes it would read are not modelled.
- `template/mt_config.h` is not part of this model. It is a configuration template.

## Findings

| source | as written | input that shows it | evidently intended | confidence | as-written member | corrected member |
|---|---|---|---|---|---|---|
| midware/tcpip/ip.c:179 | `ip_checksum` folds the carry once and masks, dropping the carry the fold itself makes | header for 0.0.0.0 to 0.0.187.234, protocol 1, id 0, no payload: word sum 0x1ffff folds to 0, so 0xffff is stored where RFC 1071 gives 0xfffe; the receiver's sum 0x2fffe also folds to 0, its checksum is 0xffff rather than 0, and it drops the frame its own transmit built | fold the end-around carry until none is left (RFC 1071) | not executed | IpProperties.AsWrittenRejectsOwnHeader | IpProperties.TxHeaderChecksumVerifies |
| midware/tcpip/ip.c:239 | total length is never checked against the IHL header size, so `len - hdr_size` wraps as unsigned in the `memmove` | 24-byte frame: version 4, IHL 6, total length 20, TTL 1, checksum 0xb8eb, to 0.0.0.0 | drop a frame whose header is longer than its total length | not executed | IpProperties.RxUnderflowExample | IpProperties.RxCorrectionConservative |
