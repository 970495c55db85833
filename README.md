# ADS131M driver: register codec, sample decoding and duplex transfer

This project models the wire contract of a Rust driver for the TI ADS131M
family of delta-sigma ADCs, and proves properties of that model in Dafny. It
covers three parts of the driver.

- **`Types` (`types.dfy`): the register codec.**
  - Each enumerated register field (word length, CRC type, DRDY source and
    states, oversampling ratio, power mode, PGA gain, global-chop delay,
    current-detect settings, DC-block corner, input mux) is a datatype.
  - Each field has a total code table `XFromCode`, which covers every code
    of the field's width, alias codes included, and a canonical code `XCode`.
  - Each device register (ID, STATUS, MODE, CLOCK, GAIN1, CFG, THRSHLD,
    CHx_CFG, CHx_OCAL, CHx_GCAL) is a record. It decodes from its 16-bit
    word or its [MSB, LSB] word pair with the driver's shifts and masks, and
    encodes back wherever the driver encodes it.
  - Proved:
    - every encoder is a right inverse of its decoder;
    - re-encoding a decoded word clears exactly the reserved bits and
      canonicalises alias codes;
    - encoders leave reserved bits clear;
    - alias codes decode as their canonical codes;
    - the power-up defaults match their register words;
    - the ID word yields the channel count.
- **`Samples` (`sample_grab.dfy`): sample decoding.**
  - A sample grab is a sequence of three-byte big-endian two's-complement
    samples, one per channel.
  - The conversions to 24-bit and 32-bit integers and to the unit interval
    are methods that fill an array in a loop, as the driver does.
  - Each is proved element by element against the decoding function
    `I24FromBeBytes`. That function is proved to be a bijection onto the
    24-bit range.
- **`Spi` (`spi.dfy`): the word-pipelined full-duplex transfer.**
  - The bus is a class that answers write and read attempts from two finite
    reply scripts. It records the words it accepted, the words it supplied
    and every attempt.
  - `Transfer` is the driver's loop: two cursors, a one-word write cache,
    writes first, then reads only behind the write cursor.
  - It is proved against `Replay`, a step function over the bus attempts.
    `Replay` accepts the attempts of each loop iteration in the loop's order:
    first a write of the word at the write cursor while that cursor is short
    of the transfer length, then a read while a read is due. It says where
    the attempts leave the cursors. It refuses a read whose word does not
    fit in `receive`, because the code panics before making it.
  - The final state is tied to the inputs:
    - the bus accepted exactly the words for the bytes of `send` before the
      final write cursor, zero-padded; on `Ok` that is the whole transfer
      length;
    - the receive buffer holds the bytes of the words read, in order, and is
      unchanged after the read cursor;
    - the replies the bus gave are exactly the ones taken off its scripts,
      and the words read are those of its completed read replies;
    - `Ok` is returned exactly when both cursors reach the transfer length.
  - Both word widths are modelled: `u8` words and big-endian `u16` words.

`Bytes` (`bytes.dfy`) defines the byte type shared by the sample and
transfer modules.

The code and its documentation disagree in one place, and the model follows
the code. The transfer's doc comment (src/spi.rs:13-14) says that receive
bytes beyond the end of a shorter `receive` buffer are dropped. The loop
instead slices `receive` at the read cursor unconditionally (src/spi.rs:62),
which panics once the read cursor reaches the end of `receive`. The model
ends the transfer with `OutOfBounds` there, and `Transfer` proves that this
happens only at the end of `receive`.

## Model

| member | source | states |
|---|---|---|
| Types.PackU24 | src/types.rs:717 | The 24-bit value packed from [MSB, LSB] always fits in 24 bits, so `u24::new` never panics. Its top 16 bits are the MSB word and its low byte is the LSB word's high byte. |
| Types.WordLengthCode | src/types.rs:16-31 | Every word length has a 2-bit code that decodes back to it. |
| Types.CrcTypeCode | src/types.rs:36-45 | Every CRC type has a 1-bit code that decodes back to it. |
| Types.DrdySourceCode | src/types.rs:50-63 | Every DRDY source has a canonical code below 3 that decodes back to it (code 3 is an alias). |
| Types.DrdyNotReadyStateCode | src/types.rs:68-77 | Every DRDY not-ready state has a 1-bit code that decodes back to it. |
| Types.DrdyReadyStateCode | src/types.rs:82-91 | Every DRDY ready state has a 1-bit code that decodes back to it. |
| Types.OversamplingRatioCode | src/types.rs:96-127 | Every oversampling ratio has a canonical code below 9 that decodes back to it (codes 9 to 15 are aliases). |
| Types.PowerModeCode | src/types.rs:132-145 | Every power mode has a canonical code below 3 that decodes back to it (code 3 is an alias). |
| Types.PgaGainCode | src/types.rs:150-177 | Every PGA gain has a 3-bit code that decodes back to it. |
| Types.GlobalChopDelayCode | src/types.rs:184-235 | Every global-chop delay has a 4-bit code that decodes back to it. |
| Types.CurrentDetectChannelsCode | src/types.rs:241-250 | Every current-detect channel setting has a 1-bit code that decodes back to it. |
| Types.CurrentDetectCountCode | src/types.rs:255-282 | Every current-detect count has a 3-bit code that decodes back to it. |
| Types.CurrentDetectLengthCode | src/types.rs:287-314 | Every current-detect length has a 3-bit code that decodes back to it. |
| Types.DcBlockCode | src/types.rs:319-368 | Every DC-block setting has a 4-bit code that decodes back to it. |
| Types.ChannelMuxCode | src/types.rs:373-388 | Every input mux setting has a 2-bit code that decodes back to it. |
| Types.WordLengthFromCode | src/types.rs:16-31 | The word length code table, total over the field's width. No contract of its own; Types.WordLengthCode and Types.CodeTablesWithoutAliases characterise it. |
| Types.CrcTypeFromCode | src/types.rs:36-45 | The CRC type code table, total over the field's width. No contract of its own; Types.CrcTypeCode and Types.CodeTablesWithoutAliases characterise it. |
| Types.DrdySourceFromCode | src/types.rs:50-63 | The DRDY source code table, total over the field's width. No contract of its own; Types.DrdySourceCode and Types.CodeTablesWithAliases characterise it. |
| Types.DrdyNotReadyStateFromCode | src/types.rs:68-77 | The DRDY not-ready state code table, total over the field's width. No contract of its own; Types.DrdyNotReadyStateCode and Types.CodeTablesWithoutAliases characterise it. |
| Types.DrdyReadyStateFromCode | src/types.rs:82-91 | The DRDY ready state code table, total over the field's width. No contract of its own; Types.DrdyReadyStateCode and Types.CodeTablesWithoutAliases characterise it. |
| Types.OversamplingRatioFromCode | src/types.rs:96-127 | The oversampling ratio code table, total over the field's width. No contract of its own; Types.OversamplingRatioCode and Types.CodeTablesWithAliases characterise it. |
| Types.PowerModeFromCode | src/types.rs:132-145 | The power mode code table, total over the field's width. No contract of its own; Types.PowerModeCode and Types.CodeTablesWithAliases characterise it. |
| Types.PgaGainFromCode | src/types.rs:150-177 | The PGA gain code table, total over the field's width. No contract of its own; Types.PgaGainCode and Types.CodeTablesWithoutAliases characterise it. |
| Types.GlobalChopDelayFromCode | src/types.rs:184-235 | The global-chop delay code table, total over the field's width. No contract of its own; Types.GlobalChopDelayCode and Types.CodeTablesWithoutAliases characterise it. |
| Types.CurrentDetectChannelsFromCode | src/types.rs:241-250 | The current-detect channel setting code table, total over the field's width. No contract of its own; Types.CurrentDetectChannelsCode and Types.CodeTablesWithoutAliases characterise it. |
| Types.CurrentDetectCountFromCode | src/types.rs:255-282 | The current-detect count code table, total over the field's width. No contract of its own; Types.CurrentDetectCountCode and Types.CodeTablesWithoutAliases characterise it. |
| Types.CurrentDetectLengthFromCode | src/types.rs:287-314 | The current-detect length code table, total over the field's width. No contract of its own; Types.CurrentDetectLengthCode and Types.CodeTablesWithoutAliases characterise it. |
| Types.DcBlockFromCode | src/types.rs:319-368 | The DC-block setting code table, total over the field's width. No contract of its own; Types.DcBlockCode and Types.CodeTablesWithoutAliases characterise it. |
| Types.ChannelMuxFromCode | src/types.rs:373-388 | The input mux setting code table, total over the field's width. No contract of its own; Types.ChannelMuxCode and Types.CodeTablesWithoutAliases characterise it. |
| Types.CodeTablesWithoutAliases | src/types.rs:16-45 | For the fields without aliases, every code of the field's width is the canonical code of what it decodes to, so the code tables are bijections. |
| Types.CodeTablesWithAliases | src/types.rs:50-63 | DRDY source code 3 decodes to what code 2 decodes to; oversampling codes 8 to 15 all decode to what code 8 decodes to; power-mode code 3 decodes to what code 2 decodes to; every other code is canonical. |
| Types.IdChannelCountField | src/types.rs:396-403 | The channel count depends on bits 11..8 of the ID word and on nothing else, and every 4-bit count is read back from those bits. |
| Types.IdDeviceWords | src/types.rs:830-846 | The ID words 0x2200, 0x2300, 0x2400, 0x2600 and 0x2800 give channel counts 2, 3, 4, 6 and 8. |
| Types.IdFromWord | src/types.rs:396-403 | The register decoder, with the driver's shifts and masks. No contract of its own; Types.IdChannelCountField and Types.IdDeviceWords characterise it. |
| Types.StatusFromWord | src/types.rs:443-460 | The register decoder, with the driver's shifts and masks. No contract of its own; Types.StatusDefault and Types.StatusModeSharedFields characterise it. |
| Types.ModeFromWord | src/types.rs:512-526 | The register decoder, with the driver's shifts and masks. No contract of its own; Types.ModeToWord, Types.ModeReencode and Types.ModeDrdySourceAlias characterise it. |
| Types.ClockFromWord | src/types.rs:580-591 | The register decoder, with the driver's shifts and masks. No contract of its own; Types.ClockToWord, Types.ClockReencode and Types.ClockAliases characterise it. |
| Types.GainFromWord | src/types.rs:634-643 | The register decoder, with the driver's shifts and masks. No contract of its own; Types.GainToWord and Types.GainReencode characterise it. |
| Types.ConfigFromWord | src/types.rs:677-688 | The register decoder, with the driver's shifts and masks. No contract of its own; Types.ConfigToWord and Types.ConfigReencode characterise it. |
| Types.ThresholdFromWords | src/types.rs:711-720 | The register decoder, with the driver's shifts and masks. No contract of its own; Types.ThresholdToWords and Types.ThresholdReencode characterise it. |
| Types.ChannelConfigFromWord | src/types.rs:748-756 | The register decoder, with the driver's shifts and masks. No contract of its own; Types.ChannelConfigToWord and Types.ChannelConfigReencode characterise it. |
| Types.OffsetCalFromWords | src/types.rs:771-779 | The register decoder, with the driver's shifts and masks. No contract of its own; Types.OffsetCalToWords and Types.OffsetCalReencode characterise it. |
| Types.GainCalFromWords | src/types.rs:798-806 | The register decoder, with the driver's shifts and masks. No contract of its own; Types.GainCalToWords and Types.GainCalReencode characterise it. |
| Types.StatusDefault | src/types.rs:462-478 | The power-up status, with only the reset flag raised, is what the status word 0x0500 decodes to (the `status_default` test at src/types.rs:849-851). |
| Types.StatusModeSharedFields | src/types.rs:443-460 | STATUS and MODE decode the CRC type, the reset flag and the word length from the same bits. |
| Types.ModeToWord | src/types.rs:512-540 | Decoding the MODE word of any configuration gives that configuration back, and reserved bits 15, 14 and 7..5 are clear. |
| Types.ModeDefault | src/types.rs:542-556 | The default MODE configuration encodes to 0x0510, and 0x0510 decodes to it. |
| Types.ModeReencode | src/types.rs:512-540 | Re-encoding a decoded MODE word keeps every field bit and clears the reserved bits. It changes DRDY-source alias code 3 to 2. |
| Types.ModeDrdySourceAlias | src/types.rs:61 | A MODE word with DRDY-source code 3 decodes like the same word with code 2. |
| Types.ClockToWord | src/types.rs:580-603 | Decoding the CLOCK word of any configuration gives that configuration back, even though the channel-0 bit is ORed in twice. Reserved bits 15..12 and 7..6 are clear. |
| Types.ClockDefault | src/types.rs:605-616 | The default CLOCK configuration encodes to 0x0F0E, and 0x0F0E decodes to it. |
| Types.ClockReencode | src/types.rs:580-603 | Re-encoding a decoded CLOCK word that uses only canonical codes keeps exactly the channel, ratio and power-mode bits. |
| Types.ClockAliases | src/types.rs:98 | A CLOCK word with an oversampling code from 9 to 15 decodes like the same word with code 8. A CLOCK word with power-mode code 3 decodes like the same word with code 2 (src/types.rs:143). |
| Types.GainToWord | src/types.rs:634-652 | Decoding the GAIN1 word of any configuration gives it back, and bits 3, 7, 11 and 15 are clear. |
| Types.GainDefault | src/types.rs:915-919 | The default gains encode to 0, and 0 decodes to them. |
| Types.GainReencode | src/types.rs:634-652 | Re-encoding a decoded GAIN1 word keeps the four gain fields and clears bits 3, 7, 11 and 15. |
| Types.ConfigToWord | src/types.rs:677-699 | Decoding the CFG word of any configuration gives it back, and bits 15..13 are clear. |
| Types.ConfigDefault | src/types.rs:935-939 | The default CFG configuration encodes to 0x0600, and 0x0600 decodes to it. |
| Types.ConfigReencode | src/types.rs:677-699 | Re-encoding a decoded CFG word keeps bits 12..0 and clears bits 15..13. |
| Types.ThresholdToWords | src/types.rs:711-733 | Decoding the THRSHLD words of any 24-bit threshold and DC-block setting gives them back, and bits 7..4 of the LSB word are clear. |
| Types.ThresholdDefault | src/types.rs:965-969 | The default threshold encodes to [0, 0], and [0, 0] decodes to it. |
| Types.ThresholdReencode | src/types.rs:711-733 | Re-encoding decoded THRSHLD words keeps the MSB word and the LSB word except its bits 7..4. |
| Types.ChannelConfigToWord | src/types.rs:748-762 | Decoding the CHx_CFG word of any configuration gives it back, and bits 5..3 are clear. |
| Types.ChannelConfigDefault | src/types.rs:987-991 | The default channel configuration encodes to 0, and 0 decodes to it. |
| Types.ChannelConfigReencode | src/types.rs:748-762 | Re-encoding a decoded CHx_CFG word keeps every bit except bits 5..3. |
| Types.OffsetCalToWords | src/types.rs:771-789 | Decoding the CHx_OCAL words of any 24-bit offset gives it back, and the low byte of the LSB word is clear. |
| Types.OffsetCalDefault | src/types.rs:1010-1014 | The default offset encodes to [0, 0], and [0, 0] decodes to it. |
| Types.OffsetCalReencode | src/types.rs:771-789 | Re-encoding decoded CHx_OCAL words keeps the MSB word and the LSB word's high byte. |
| Types.GainCalToWords | src/types.rs:798-816 | Decoding the CHx_GCAL words of any 24-bit gain gives it back, and the low byte of the LSB word is clear. |
| Types.GainCalDefault | src/types.rs:818-824 | The default gain calibration 0x800000 encodes to [0x8000, 0], and [0x8000, 0] decodes to it. |
| Types.GainCalReencode | src/types.rs:798-816 | Re-encoding decoded CHx_GCAL words keeps the MSB word and the LSB word's high byte. |
| Samples.AsBytes | src/sample_grab.rs:19-21 | The borrowed bytes are the stored bytes: one triple per channel, and rebuilding a grab from them gives the same grab. |
| Samples.ToBytes | src/sample_grab.rs:25-27 | The extracted bytes are the stored bytes: one triple per channel, and rebuilding a grab from them gives the same grab. |
| Samples.I24FromBeBytes | src/sample_grab.rs:133-169 | The decoded value is in the 24-bit range, and is negative exactly when the first byte's top bit is set. Encoding it as 24-bit big-endian two's complement gives back the three bytes. |
| Samples.I24BytesRoundTrip | src/sample_grab.rs:133-169 | Every 24-bit value is the decoding of its own encoding, so decoding is a bijection onto the 24-bit range. |
| Samples.I24TestVectors | src/sample_grab.rs:133-169 | 7F FF FF, 00 00 01, 00 00 00, FF FF FF and 80 00 00 decode to 8388607, 1, 0, -1 and -8388608. |
| Samples.IntoI24Array | src/sample_grab.rs:31-38 | The result has one value per channel, and value i is the decoding of channel i's bytes. |
| Samples.IntoI32Array | src/sample_grab.rs:42-49 | The result has one value per channel, value i is the decoding of channel i's bytes, and every value lies in [-8388608, 8388607]. |
| Samples.FloatDivisor | src/sample_grab.rs:56-61 | The divisor is positive and at least the sample's magnitude. Only -8388608 reaches it from below and only 8388607 from above. |
| Samples.NormalizedSample | src/sample_grab.rs:53-65 | The scaled sample lies in [-1, 1]. Only the 24-bit minimum reaches -1 and only the maximum reaches 1. Only zero maps to zero, and the sign is kept. |
| Samples.FloatDivisorBySign | src/sample_grab.rs:56-61 | The divisor depends only on the sample's sign. Every negative sample shares the divisor of -8388608, which is 8388608, and every other sample shares the divisor of 8388607, which is 8388607. |
| Samples.NormalizedSampleBySign | src/sample_grab.rs:53-65 | Two samples of the same sign are scaled by the same factor, so their scaled values are in the ratio of the samples. |
| Samples.IntoFloats | src/sample_grab.rs:53-65 | The result has one value per channel, value i is the scaled decoding of channel i's bytes, and every value lies in [-1, 1]. |
| Spi.WordBytes | src/spi.rs:117 | A word that fits the width is laid out in `WORD_LEN` bytes whose big-endian value is the word (one byte for `u8` words, at src/spi.rs:143). |
| Spi.EncodeWord | src/spi.rs:121-124 | `WORD_LEN` bytes encode to a word of that width whose value is their big-endian value (`buf[0]` for `u8` words, at src/spi.rs:147-150). Laying the word out again gives the same bytes. |
| Spi.WordBytesEncode | src/spi.rs:117-123 | Encoding the bytes a word is laid out in gives the word back, so encoding inverts `to_be_bytes`. |
| Spi.WordToSend | src/spi.rs:45-51 | The word for a write cursor fits the word width. |
| Spi.WordToSendInside | src/spi.rs:46-47 | Inside `send`, the word for the write cursor is laid out as exactly the `WORD_LEN` bytes of `send` at the cursor. |
| Spi.WordToSendPast | src/spi.rs:48-49 | Past the end of `send`, the word for the write cursor is the zero word. |
| Spi.WordToSendBytes | src/spi.rs:45-51 | The word for a write cursor is laid out as the bytes of `send` at the cursor, with zeros past its end. |
| Spi.SentWords | src/spi.rs:45-54 | The words for the first n bytes are n / `WORD_LEN` words, and each fits the width. |
| Spi.SentWordsSnoc | src/spi.rs:53-54 | Completing one more write appends the word at the write cursor to the words sent. |
| Spi.SentWordsAt | src/spi.rs:45-54 | The k-th word sent is the word for byte offset k·`WORD_LEN`: the encoding of those bytes of `send`, or the zero word past its end. |
| Spi.Concat | src/spi.rs:117 | The bytes of a sequence of words are `WORD_LEN` bytes per word. |
| Spi.PaddedWord | src/spi.rs:45-51 | The bytes of the word at the write cursor extend `send`, zero-padded, by one word. |
| Spi.SentWordsBytes | src/spi.rs:45-54 | Laid out end to end, the words sent for the first n bytes are exactly `send`, zero-padded to n bytes (src/spi.rs:13). |
| Spi.Step | src/spi.rs:41-67 | One attempt of the loop. A read comes right after the iteration's write, or with the write cursor at the transfer length, while a read is due. Otherwise a write of the word at the write cursor comes while that cursor is short of the transfer length. A read whose word does not fit in `receive` is never made, because the slice at src/spi.rs:62 panics first. Only a completed attempt moves its cursor. No contract of its own; Spi.StepBounds, Spi.CompletedWriteThenRead and Spi.ConsecutiveReadsAtEnd characterise it. |
| Spi.Replay | src/spi.rs:41-67 | The sequences of attempts the loop makes, step by step from both cursors at zero. No contract of its own; Spi.ReplayBounds, Spi.ReplayReadFits, Spi.ReplayFailure, Spi.BlockedWriteRetried, Spi.CompletedWriteThenRead and Spi.ConsecutiveReadsAtEnd characterise it, and Spi.Transfer is proved against it. |
| Spi.StepBounds | src/spi.rs:41-67 | One attempt of the loop keeps both cursors word-aligned with `read <= written <= transferLen`. |
| Spi.ReplayBounds | src/spi.rs:41-67 | After any sequence of attempts the loop can make, both cursors are word-aligned with `read <= written <= transferLen`. |
| Spi.ReplayReadFits | src/spi.rs:61-63 | The read cursor never passes the end of `receive`: every read the loop makes stores a word that fits. |
| Spi.ReplayFailure | src/spi.rs:56 | A failed attempt is the loop's last one: no earlier attempt failed, and the record of failure is set exactly when the last attempt failed (src/spi.rs:65). |
| Spi.ReadsKeepWritten | src/spi.rs:61-67 | Read attempts never move the write cursor. |
| Spi.BlockedWriteRetried | src/spi.rs:45 | A write that would block is followed, after any reads, by a write of the same cached word (src/spi.rs:55). |
| Spi.CompletedWriteThenRead | src/spi.rs:53-63 | A completed write is always followed by a read attempt, because the read cursor is then behind the write cursor and short of the transfer length. |
| Spi.ConsecutiveReadsAtEnd | src/spi.rs:41-64 | Two read attempts come in a row only once the write cursor has reached the transfer length. Before that, every iteration writes before it reads. |
| Spi.LogFromSnoc | src/spi.rs:41-67 | Logging one more attempt of the loop advances the replayed progress by that step. |
| Spi.ReceivedFromSnoc | src/spi.rs:62-63 | Storing one more read word at the read cursor advances the cursor by one word. The buffer then holds the bytes of all the words read, followed by the original bytes. |
| Spi.TracksStart | src/spi.rs:35-38 | A transfer starts with both cursors at zero, nothing sent, nothing received and no failure. |
| Spi.TracksWrite | src/spi.rs:43-58 | A write attempt of the word at the write cursor, made where the loop makes one, keeps the transfer tracked and lets the iteration read next. The cursor moves one word only on `Ok`, the accepted words then grow by that word, and an error is recorded as the failure. |
| Spi.TracksRead | src/spi.rs:61-67 | A read attempt, made where a read is due after the iteration's write or with the write cursor at the transfer length, keeps the transfer tracked and ends the iteration. The cursor moves one word only on `Ok`, and the received bytes are spliced in at the cursor. |
| Spi.WriteOutcomes | src/spi.rs:54-56 | The replies to a log's write attempts, in order. No contract of its own; Spi.LogAppend and Spi.ScriptedBus.Send characterise it. |
| Spi.ReadOutcomes | src/spi.rs:63-65 | The replies to a log's read attempts, in order. No contract of its own; Spi.LogAppend and Spi.ScriptedBus.Read characterise it. |
| Spi.ReadyWords | src/spi.rs:62-63 | The words of a log's completed reads, in order. No contract of its own; Spi.LogAppend and Spi.ScriptedBus.Read characterise it. |
| Spi.LogAppend | src/spi.rs:41-67 | The write replies, read replies and read words of two logs in a row are those of the first log followed by those of the second. |
| Spi.ScriptedBus.constructor | src/spi.rs:108-132 | A new bus holds the given reply scripts, remembers them as its scripts, and has accepted, supplied and logged nothing. |
| Spi.ScriptedBus.Send | src/spi.rs:126-131 | A write attempt consumes one write reply and logs the attempt. It adds the word to the accepted words only on `Ok`. |
| Spi.ScriptedBus.Read | src/spi.rs:111-116 | A read attempt consumes one read reply and logs the attempt. On `Ok` it supplies a word of the bus width. |
| Spi.BusSince | src/spi.rs:41-67 | Since any earlier point of a valid bus, the replies taken off each script are the replies the log records since then. The words supplied since then are those of the completed reads since then. |
| Spi.ReadWord | src/spi.rs:111-119 | On `Ok`, the buffer gets the supplied word's `WORD_LEN` bytes (big-endian for `u16`, src/spi.rs:117; one byte for `u8`, src/spi.rs:143) at the given offset, and every other byte is unchanged. On `WouldBlock` or an error, the buffer is untouched. The attempt and its reply are logged, and an error is the reply's own error. |
| Spi.WriteHalf | src/spi.rs:43-58 | One write attempt of the word at the write cursor, which a cached word equals, so the transfer stays tracked. The bus logs the attempt with the next write reply. On `Ok` the cursor advances one word and the cache is empty. On `WouldBlock` the cursor stays and the cache holds the word. On a bus error the transfer stops with that `Err`. |
| Spi.ReadHalf | src/spi.rs:61-67 | Where the slice at src/spi.rs:62 would panic, it stops with `OutOfBounds` and makes no read: the log, the scripts and `receive` are unchanged. Otherwise the bus logs one read attempt with the next read reply, which ends the iteration. On `Ok` the cursor advances one word and the word's bytes go in at the old cursor. On `WouldBlock` the cursor and `receive` stay. On a bus error the transfer stops with that `Err`. |
| Spi.Transfer | src/spi.rs:31-71 | Every attempt made is one the loop allows. The cursors are aligned, with `read <= written <= max(len(send), len(receive))`. The bus accepted exactly the words for the first `written` bytes of zero-padded `send`. `receive` holds the read words' bytes in its first `read` bytes, and the rest is unchanged. The replies the bus gave since the start are exactly those taken off its scripts, and the words it supplied are those of its completed read replies. `Ok` is returned exactly when both cursors reach the transfer length. `OutOfBounds` comes where the loop's next attempt would be a read that does not fit, and no such read is made. `Exhausted` comes only when the script that the loop's next attempt needs is empty. `OutOfBounds` occurs only with the read cursor at the end of a `receive` shorter than what was written. |

## Left out

- The `embedded_hal::spi::FullDuplex` bus and the mapping of its errors to `Error::SpiIOError` (src/spi.rs:108-158) are foreign code. The model replaces them with `ScriptedBus`, which replies from finite scripts and reports a failure directly as the driver's I/O error.
- Spi.Transfer omits termination on a live bus. The loop polls until the bus makes progress, and need not end if the bus keeps answering `WouldBlock`. The model's bus has finite scripts, so `Transfer` also stops with `Exhausted` when the script its next attempt needs runs out, a case the driver does not have.
- Spi.Transfer does not claim the documented dropping of excess receive bytes (src/spi.rs:13-14), because the code does not do it. It stops with `OutOfBounds` where the code panics.
- The `debug_assert!`s that both buffer lengths are even (src/spi.rs:32-33) are debug-only. The model instead requires what the slicing needs: both lengths are multiples of `WORD_LEN`, so 2 for `u16` words and any length for `u8` words.
- Spi.ReadWord and Spi.ScriptedBus.Read omit the `debug_assert!` that the buffer is one word long (src/spi.rs:112, 138). Their callers pass exactly one word.
- Samples.IntoFloats and Samples.NormalizedSample use the exact rational quotient, not the rounded `f64` division (src/sample_grab.rs:58-61). Only the choice of divisor is modelled exactly.
- The serde `Serialize`, `Deserialize` and `Visitor` implementations for sample grabs (src/sample_grab.rs:68-124) are a library integration behind a feature flag.
- The `num_enum`, `enum_iterator` and `ux` derive machinery is replaced by explicit datatypes, total code tables and bounded bit-vector types (`U4`, `U10`, `U24`).
- The `i24` integer type of `crate::int` is not part of this model. `I24FromBeBytes` defines its `from_be_bytes` by the arithmetic that the tests at src/sample_grab.rs:133-169 pin down.
- Hardware registers that the driver does not decode, and the DMA interfaces noted as a TODO (src/spi.rs:160), have nothing to model.
- Bytes are a bounded integer type (`Bytes.Byte`, 0 to 255), and words are bounded integers (0 to 65535) that fit their width. The arithmetic is the same as on `u8` and `u16`.
