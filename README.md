# Rugged Audio Shield driver, modelled in Dafny

This project models the host side of the Rugged Audio Shield library for
Arduino: class `RAS`, which drives the shield over SPI with a fixed
command/response protocol. Every command except the status query is one
transaction: `_send_cmd` selects the shield, exchanges the command byte and
waits 100 µs; a fixed payload follows; then `_end_spi` deselects the shield.
These commands differ only in their command byte and in the byte layout of
their payload. `GetState` opens a transaction and never closes it, so
`WaitForIdle` leaves the shield selected. The getters and `InterpretError`
do not use the bus.

The model has these parts:

- `types.dfy` (module `Types`): the integer widths (`byte`, `u16`, `i16`),
  the enumerations of `RAS.h` as datatypes with their wire codes, and the
  `info` record.
- `bus.dfy` (module `Bus`): the bus as a trace of events
  (`SelectLow | Xfer(out) | Delay(us) | SelectHigh`). It defines the
  transaction shape `Transaction(cmd, payload)`, the command bytes, a parser
  that reads (command, payload) back off a trace, and the select-line level
  after a trace.
- `layout.dfy` (module `Layout`): every payload layout written out
  explicitly:
  - little-endian 16-bit fields (the AVR byte order);
  - `strncpy` into 12-byte filename fields;
  - the effect, stream, record, presize and erase payloads;
  - the volume mask;
  - the sample bytes of a stream buffer;
  - the 7-byte packed `info` record.
- `errors.dfy` (module `Errors`): `InterpretError`, with its two string
  tables and a `%u` formatter.
- `ras.dfy` (module `Driver`): class `RAS`.
  - Its fields are the cached gains, `info` and `sspin`, plus the bus
    `trace` and `pos`, the number of exchanges so far.
  - `SPI.transfer`'s answers come from a reply stream `reply: nat -> byte`.
    The k-th exchange of the run receives `reply(k)`.
  - Every method states the events it appends to the trace, what it
    returns in terms of the reply stream, and the fields it changes.
  - The local buffers are built in place in arrays, as the source builds
    them. `StoreLe16` plays the part of the `*(uint16_t *)` stores and
    `StrNCopy` the part of `strncpy`.
- `scenarios.dfy` (module `Scenarios`): client code that relies only on the
  contracts. It covers the gain setters, an idle wait over the replies
  busy, busy, idle, the stream-buffer reply, and a 44.1 kHz effect payload.

The three protocol irregularities are kept as the code has them:

- `GetState` returns the reply to its command byte.
- `GetState` never deasserts select (`Bus.SelectAfterOpen`,
  `Bus.SelectAfterPolls`).
- `PlayStreamBuffer` returns the reply to the first payload byte.

Two payload sizes follow from the buffers the code declares:

- `ReadInfo` reads `sizeof(info)` bytes, which is 7 on the packed AVR layout
  (RAS.h:199-205, RAS.cpp:90).
- `PresizeFile` sends the 15 bytes of `buf[15]`: the size, the 12-byte name
  field and a final zero (RAS.cpp:249-255).

## Model

| member | source | states |
|---|---|---|
| `Types.StateOf` | RAS.h:53-64 | the state a status byte stands for; it is total, its code is the byte back again, and it is `Idle` exactly when the byte is 0 |
| `Types.StateCodeRoundTrip` | RAS.h:53-64 | every state, including an unrecognised code at or past `STATE_NUM_STATES`, is recovered unchanged from its status byte |
| `Types.StereoModeOf` | RAS.h:37-40 | a payload byte names a stereo mode exactly when it is 0 or 1, and then it is that mode's code |
| `Types.SourceOf` | RAS.h:48-51 | a payload byte names an input source exactly when it is 0 or 1, and then it is that source's code |
| `Bus.Xfers` | RAS.cpp:80-85 | sending a buffer makes one exchange per byte, in order: element i is `Xfer(bs[i])` |
| `Bus.Zeros` | RAS.cpp:73-78 | what is clocked out while reading: n zero bytes |
| `Bus.XferCount` | RAS.cpp:55 | the number of SPI exchanges in a trace, at most the number of its events |
| `Bus.Polls` | RAS.cpp:263-265 | n status polls are 3n events, one unclosed status query each |
| `Bus.Open` | RAS.cpp:49-59 | `_send_cmd` appends three events, and the second one exchanges the command byte |
| `Bus.Transaction` | RAS.cpp:66-71 | every command is `_send_cmd`, the payload exchanges, then `_end_spi`: \|p\| + 4 events, opening with select low and the command byte and closing with select high |
| `Bus.XfersAppend` | RAS.cpp:80-85 | sending two buffers one after the other is the same as sending their concatenation |
| `Bus.XferCountAppend` | RAS.cpp:55 | the number of exchanges is additive over trace concatenation |
| `Bus.XferCountXfers` | RAS.cpp:80-85 | sending n bytes performs exactly n exchanges |
| `Bus.TransactionXferCount` | RAS.cpp:49-85 | a transaction with payload p performs exactly 1 + \|p\| exchanges, so it consumes exactly that many replies |
| `Bus.TransactionFraming` | RAS.cpp:49-71 | every transaction is select low, command byte, 100 µs delay, payload, select high; select is asserted once at the start and deasserted once at the very end, with no other select change in between |
| `Bus.XferOutsXfers` | RAS.cpp:80-85 | the bytes sent can be read back off a run of exchanges |
| `Bus.XferOutsSound` | RAS.cpp:80-85 | a run of events that reads back as bytes is exactly the exchanges of those bytes |
| `Bus.ParseTransactionRoundTrip` | RAS.cpp:49-85 | the command byte and the payload of any transaction can be recovered from its events |
| `Bus.ParseTransactionSound` | RAS.cpp:49-85 | any trace segment that parses as (command, payload) is exactly that transaction, so the framing is unambiguous |
| `Bus.SelectedSkip` | RAS.cpp:80-85 | byte exchanges and delays leave the select level unchanged |
| `Bus.SelectedIffLowSince` | RAS.cpp:49-64 | `Selected`, the select level after a trace, is true exactly when some `digitalWrite(sspin, LOW)` in it has not been followed by a `digitalWrite(sspin, HIGH)` |
| `Bus.SelectAfterOpen` | RAS.h:181 | after `_send_cmd`, whatever came before, the shield is selected; this is why `GetState` leaves select asserted |
| `Bus.SelectAfterTransaction` | RAS.cpp:61-64 | after any complete transaction the shield is deselected |
| `Bus.SelectAfterPolls` | RAS.cpp:259-266 | after one or more status polls the shield is still selected |
| `Layout.Le16` | RAS.cpp:97 | a 16-bit store writes two bytes, and reading them low byte first gives the value back |
| `Layout.FromLe16RoundTrip` | RAS.cpp:137 | reading two bytes low byte first and storing the value again gives the same two bytes |
| `Layout.Unsigned16` | RAS.cpp:166 | an `int16_t` sample's bit pattern is congruent to it modulo 2^16, and equals it when it is non-negative |
| `Layout.CStrLen` | RAS.cpp:145 | the length of a C string: no NUL before it, a NUL at it unless the sequence ends there |
| `Layout.StrNCpy` | RAS.cpp:144-145 | `strncpy` into an n-byte zeroed field: byte i is the source's byte i when i is within the C string, and 0 otherwise |
| `Layout.FilenameField` | RAS.cpp:145 | a filename field is 12 bytes long |
| `Layout.FilenamePayload` | RAS.cpp:140-149 | the 13-byte filename payload: bytes [0, k) are the name, with k = min(C-string length, 12); every other byte is 0, and byte 12 is always 0 |
| `Layout.EffectPayload` | RAS.cpp:94-104 | decoding the AudioEffect payload recovers (Fs, stereo, source) |
| `Layout.DecodeEffectPayloadSound` | RAS.cpp:96-99 | only bytes laid out as AudioEffect lays them out decode, and they decode to the parameters that produced them |
| `Layout.StreamStartPayload` | RAS.cpp:151-159 | the PlayStream payload is 3 bytes: Fs low byte first, then the stereo code |
| `Layout.RecordPayload` | RAS.cpp:173-185 | the RecordWAV payload is 17 bytes: the first four decode to (Fs, stereo, source) and the rest is the 13-byte filename payload (12-byte field plus final 0) |
| `Layout.PresizePayload` | RAS.cpp:247-257 | the PresizeFile payload is 15 bytes: megabytes low byte first, then the 13-byte filename payload |
| `Layout.ErasePayload` | RAS.cpp:236-245 | the erase confirmation is exactly the bytes E8 25 3C 9D, that is, 0x25E8 and 0x9D3C little-endian |
| `Layout.VolumeByte` | RAS.h:150 | the volume byte is at most 31, agrees with the volume modulo 32, and is the volume itself when that is already at most 31 |
| `Layout.SampleBytes` | RAS.cpp:166-167 | an `int16_t` buffer occupies two bytes per sample |
| `Layout.SampleBytesAt` | RAS.cpp:166-167 | bytes 2k and 2k+1 of a sample buffer are sample k's bit pattern, low byte first |
| `Layout.StreamBufferBytes` | RAS.cpp:161-171 | PlayStreamBuffer streams exactly `RAS_STREAM_BUFFER_SIZE_BYTES` (128) bytes |
| `Layout.StreamBufferBytesAt` | RAS.cpp:161-171 | the 128 streamed bytes carry the first 64 samples, each little-endian in its own slot |
| `Layout.EncodeInfo` | RAS.h:199-205 | the packed AVR info record is 7 bytes: major at 0, minor at 1, `build` little-endian at 2-3, `bootloaderVersion` little-endian at 4-5, the card flag at 6 |
| `Layout.DecodeInfo` | RAS.cpp:87-92 | the record read from 7 reply bytes encodes back to exactly those bytes |
| `Layout.DecodeEncodeInfo` | RAS.h:199-205 | decoding the encoding of any info record gives the record back |
| `Errors.DigitChar` | RAS.cpp:228 | a digit below 10 becomes a decimal digit character with that value |
| `Errors.Decimal` | RAS.cpp:228 | `%u` yields at least one character, all decimal digits, with no leading zero, whose value is the number |
| `Errors.DecimalLength` | RAS.cpp:228 | a number below 10^d prints with at most d + 1 digits |
| `Errors.DecimalUnique` | RAS.cpp:228 | a digit string without leading zeros is exactly what `%u` prints for its value, so `%u`'s output is the unique such spelling |
| `Errors.MajorTextsAreNotBadCode` | RAS.cpp:191-201 | no major-category text starts like the "Bad error code" message |
| `Errors.InterpretError` | RAS.cpp:187-234 | the text for an error code; with its terminator it always fits in the 80-byte static buffer |
| `Errors.InterpretErrorInRange` | RAS.cpp:225-233 | when major = err & 0xFF < 9 and minor = err >> 8 < 18, the text is the major text, ": ", then the minor text, and it is never the unrecognised form |
| `Errors.InterpretErrorOutOfRange` | RAS.cpp:225-230 | when either index is out of its table, the text is "Bad error code " then major and minor as `%u` prints them, separated by a dot, and it parses back to exactly (major, minor) |
| `Errors.ParseBadErrorCodeSound` | RAS.cpp:228 | a text that reads back as "Bad error code M.N" is exactly what `sprintf` prints for (M, N), with no leading zeros |
| `Driver.StoreLe16` | RAS.cpp:97 | the 16-bit store writes the value's two bytes, low byte first, at the offset and leaves the rest of the buffer alone |
| `Driver.StrNCopy` | RAS.cpp:145 | `strncpy` into the buffer at an offset writes exactly the `StrNCpy` field and leaves the rest alone |
| `Driver.RAS.constructor` | RAS.h:89 | a driver in static storage starts zeroed (gains 1X), with nothing on the bus |
| `Driver.RAS.SpiTransfer` | RAS.cpp:55 | one exchange: appends `Xfer(out)` and returns the next reply |
| `Driver.RAS.DigitalWriteSelect` | RAS.cpp:53 | appends one select-line event |
| `Driver.RAS.DelayMicroseconds` | RAS.cpp:44-47 | appends one delay event |
| `Driver.RAS.Begin` | RAS.h:91-104 | both gains become 1X, the pin is stored, and the only bus event is select high, so the shield is deselected |
| `Driver.RAS.SendCmd` | RAS.cpp:49-59 | appends select low, `Xfer(cmd)`, `Delay(100)`; returns the reply to the command byte |
| `Driver.RAS.EndSpi` | RAS.cpp:61-64 | appends only select high |
| `Driver.RAS.SpiSendBuf` | RAS.cpp:80-85 | exactly `bytes` exchanges of `buf[0..bytes)`, in order |
| `Driver.RAS.SpiGetBuf` | RAS.cpp:73-78 | exactly `bytes` exchanges of 0; the buffer receives the replies in order at the offset and is unchanged elsewhere |
| `Driver.RAS.SpiSend1Byte` | RAS.cpp:66-71 | one transaction: the command byte, then the one parameter byte |
| `Driver.RAS.SpiGet1Byte` | RAS.cpp:106-114 | one transaction reading one byte; returns the reply to the payload exchange |
| `Driver.RAS.SendBuffer` | RAS.cpp:146-148 | `_send_cmd`, `_spi_send_buf` of the whole buffer, `_end_spi`: exactly one transaction carrying the buffer contents, consuming 1 + its length replies |
| `Driver.RAS.SendFilename` | RAS.cpp:140-149 | one transaction: the command byte, then the 13-byte filename payload |
| `Driver.RAS.SetInputGains` | RAS.cpp:116-128 | sends 'A' with [line, mic] and caches both gains |
| `Driver.RAS.SetInputGainLine` | RAS.h:112 | sends (line, previous mic gain); afterwards the line gain getter returns the new line gain and the mic gain getter is unchanged |
| `Driver.RAS.SetInputGainMic` | RAS.h:113 | sends (previous line gain, mic); afterwards the mic gain getter returns the new mic gain and the line gain getter is unchanged |
| `Driver.RAS.GetInputGainLine` | RAS.h:114 | returns the cached line gain; it is a function, so it adds nothing to the bus |
| `Driver.RAS.GetInputGainMic` | RAS.h:115 | returns the cached mic gain; it is a function, so it adds nothing to the bus |
| `Driver.RAS.PlayWAV` | RAS.h:122 | one 'P' transaction with the filename payload |
| `Driver.RAS.PlayStream` | RAS.cpp:151-159 | one 'C' transaction with [Fs lo, Fs hi, stereo] |
| `Driver.RAS.PlayStreamBuffer` | RAS.cpp:161-171 | one 'D' transaction with exactly the 128 buffer bytes in order; returns the reply to the first payload byte, not to the command |
| `Driver.RAS.RecordWAV` | RAS.cpp:173-185 | one 'R' transaction with the 17-byte record payload |
| `Driver.RAS.OutputControl` | RAS.h:138 | one 'H' transaction with the given byte |
| `Driver.RAS.OutputDisable` | RAS.h:139 | one 'H' transaction with 0 |
| `Driver.RAS.OutputEnable` | RAS.h:140 | one 'H' transaction with 1 |
| `Driver.RAS.OutputBassBoostControl` | RAS.h:142 | one 'B' transaction with the given byte |
| `Driver.RAS.OutputBassBoostEnable` | RAS.h:143 | one 'B' transaction with 1 |
| `Driver.RAS.OutputBassBoostDisable` | RAS.h:144 | one 'B' transaction with 0 |
| `Driver.RAS.OutputGainBoostControl` | RAS.h:146 | one 'G' transaction with the given byte |
| `Driver.RAS.OutputGainBoostEnable` | RAS.h:147 | one 'G' transaction with 1 |
| `Driver.RAS.OutputGainBoostDisable` | RAS.h:148 | one 'G' transaction with 0 |
| `Driver.RAS.OutputVolumeSet` | RAS.h:150 | one 'V' transaction whose single payload byte is `volume & 0x1F` |
| `Driver.RAS.AudioEffect` | RAS.cpp:94-104 | one transaction whose command byte is the effect code ('0', '1' or '2'), with the effect payload |
| `Driver.RAS.Stop` | RAS.h:158 | one 'Q' transaction with no payload: select low, 'Q', delay, select high |
| `Driver.RAS.EraseFilesystem` | RAS.cpp:236-245 | one '@' transaction with the fixed confirmation keys; no cached field changes |
| `Driver.RAS.InitSD` | RAS.h:166 | one 'F' transaction with the rate code; the default is 8 MHz (code 0) |
| `Driver.RAS.PresizeFile` | RAS.cpp:247-257 | one 'S' transaction with the 15-byte presize payload |
| `Driver.RAS.ReadInfo` | RAS.cpp:87-92 | one 'Z' transaction that clocks out 7 zeros; the new info record encodes to exactly the 7 replies |
| `Driver.RAS.GetAppVersionMajor` | RAS.h:175 | byte 0 of the info record as the shield sent it |
| `Driver.RAS.GetAppVersionMinor` | RAS.h:176 | byte 1 of the info record |
| `Driver.RAS.GetAppVersionBuild` | RAS.h:177 | byte 2 of the record, the low byte of the 16-bit build: the build number truncated to 8 bits |
| `Driver.RAS.GetBootloaderVersionMajor` | RAS.h:178 | byte 5 of the record, the high byte of the bootloader version |
| `Driver.RAS.GetBootloaderVersionMinor` | RAS.h:179 | byte 4 of the record; major * 256 + minor is the bootloader version |
| `Driver.RAS.IsSDCardInserted` | RAS.h:180 | byte 6 of the record |
| `Driver.RAS.GetState` | RAS.h:181 | appends exactly select low, '?', delay, with no select high; the state is decoded from the reply to the '?' byte, and the shield is left selected |
| `Driver.RAS.TxControl` | RAS.h:182 | one 'T' transaction with the given byte |
| `Driver.RAS.TxEnable` | RAS.h:183 | one 'T' transaction with 1 |
| `Driver.RAS.TxDisable` | RAS.h:184 | one 'T' transaction with 0 |
| `Driver.RAS.GetLastError` | RAS.cpp:130-138 | one 'E' transaction that reads two bytes; returns r0 + 256 * r1 of its two payload replies |
| `Driver.RAS.ReplaceApp` | RAS.h:187 | one '!' transaction with the filename payload |
| `Driver.RAS.WaitForIdle` | RAS.cpp:259-266 | if some later reply is zero, issues `GetState` exactly (index of the first zero reply) + 1 times and then returns; all earlier polls read non-zero, and the trace is exactly that many unclosed status queries |

## Left out

- Hardware set-up is not modelled: `SPI.begin`, `SPI.setClockDivider` and `pinMode` (RAS.h:92-95, 103). `digitalWrite` and `delayMicroseconds` appear only as trace events. Their electrical effect and the time they take are not modelled.
- `SPI.transfer` is an oracle: the k-th exchange of a run returns `reply(k)` from a stream fixed for the run. The contracts hold for every such stream. The model does not describe how the shield chooses its answers.
- The disabled `_dumpbuf` routine (RAS.cpp:35-42) is compiled out and is not modelled.
- `InterpretError` returns a Dafny string, not a pointer into a static buffer. `sprintf` is replaced by explicit concatenation and a `%u` formatter. A later call overwriting the previous text (aliasing) is not modelled. The contract of `Errors.InterpretError` shows the 80-byte buffer is never overrun.
- Memory reinterpretation is replaced by explicit little-endian packing:
  - `*(uint16_t *)buf` stores;
  - `_spi_get_buf` filling `info` directly;
  - the `int16_t` stream buffer read as bytes.

  The layouts are those of the AVR: packed and little-endian.
- C strings are byte sequences. The end of the sequence counts as the terminator when it holds no NUL. The 8.3 upper-case convention is not checked, and neither does the driver check it.
- Enumerated parameters are datatypes, so a caller cannot pass a value outside an enumeration. In C++ such a value can be forced with a cast, and its byte is sent as is. The toggle `enable` parameters remain raw bytes, as in the source.
- `Driver.RAS.WaitForIdle`: requires that some reply from the current position on is zero. The source loops forever when the shield never reports idle, and that non-terminating run is not modelled.
- The select pin number is stored in `sspin`, but trace events do not record the pin.
- The C++ constructor is empty. The model starts from the zeroed state of an object in static storage.
- `examples/SineSynth/gensine.py` is an offline table generator and is not part of the driver.
