# TRF7960 single-slot inventory round

This project models the tag-detection loop of the BeagleBone RFID programs in
`RFID_VideoStreaming`. In every pass of `main`'s `while(1)` loop, the program drives a
TRF7960 reader over SPI through one ISO/IEC 15693 single-slot Inventory. A round goes like
this:

- It sends the fixed initialisation and request frames.
- It waits for the reader's IRQ line.
- It checks the IRQ status for 0x80.
- It waits a bounded number of polls for the tag's response.
- It reads the FIFO status and then the FIFO.
- It sends the fixed clean-up frames.

The two programs differ in what they do with the response:

- **BBB_RFID.c** (module `RfidLoop`) reads the FIFO only when it holds the ten bytes of an
  Inventory response. It then:
  - takes the UID out of the FIFO, least significant byte first;
  - writes the UID to `uid.txt`;
  - classifies it against four known tags;
  - starts the video stream for the `Me` tag;
  - sleeps one second after every capture, through `wFlag`.
- **BBB_SPI_write.c** (module `SpiWriteLoop`) is the bench variant:
  - it does not clear `irq_status` before the first wait;
  - it always reads the FIFO once the response came in, with `transfer`'s hex dump switched on;
  - it prints its status checks.

The hardware is given as oracles:

- **The SPI bus.** `Spi.Chip` gives the byte the reader clocks out at every position of every
  exchange, and which exchanges' `ioctl` fail. `Spi.SpiBus` keeps the trace of frames sent.
- **The IRQ line.** `Irq.IrqLine` gives the level at every read.

Each loop is a `Reader` class whose fields are the variables of `main` that outlive a round.
Its `Round` method is proved against ghost specification functions:

- `PathOf` / `OutcomeOf` give which way the round goes;
- `Frames` gives the frames it sends;
- `Effects` gives what it writes, prints, launches and sleeps, in order.

The lemmas state the properties of those functions.

Supporting modules:

- `Trf7960`: the reader's address/command word, its registers and commands, the frames and
  the TX length registers.
- `Iso15693`: the request flags, the Inventory request and response, and UID extraction.
- `Tags`: the known-tag table, the `memcmp` chain, the console messages and the `uid.txt`
  line.
- `Format`: `%.2X`, `%X` and `%d`, and the hex dump.
- `Irq`: the two kinds of wait.

## Model

| member | source | states |
|---|---|---|
| Spi.SpiBus.Transfer | RFID_VideoStreaming/BBB_RFID.c:60-84 | the frame is added to the trace; the exchange fails exactly when its `ioctl` fails; on success the receive buffer holds as many reply bytes as the frame has, and the dump of them when the print flag is set |
| Spi.SpiBus.TransferStep | RFID_VideoStreaming/BBB_RFID.c:72-74 | sending frame `i` of a planned sequence leaves the plan sent up to `i`, or aborted at this exchange, and returns the reply to this exchange |
| Spi.SpiBus.TransferStepShown | RFID_VideoStreaming/BBB_SPI_write.c:53-64 | as `TransferStep`, with the hex dump of the reply returned |
| Spi.HexDump | RFID_VideoStreaming/BBB_SPI_write.c:57-64 | the index loop prints exactly `Dump` of the buffer |
| Spi.ReachIsFirstFailure | RFID_VideoStreaming/BBB_RFID.c:72-74 | a plan that completes is sent in full; otherwise it stops at a failing exchange, after exchanges that all succeeded |
| Spi.ReachSplit | RFID_VideoStreaming/BBB_RFID.c:72-74 | the second part of a split plan is reached only when the first part completes |
| Spi.SentThen | RFID_VideoStreaming/BBB_RFID.c:72-74 | a plan sent in full followed by a second plan is the concatenated plan, aborting where the second does |
| Spi.AbortWithin | RFID_VideoStreaming/BBB_RFID.c:72-74 | an abort inside a prefix of a plan is an abort of the whole plan at the same exchange |
| Spi.SentStep | RFID_VideoStreaming/BBB_RFID.c:72-74 | one more exchange either extends the sent prefix or aborts the whole plan |
| Format.Hex2 | RFID_VideoStreaming/BBB_RFID.c:80 | `%.2X` gives two upper-case hexadecimal digits whose value is the byte |
| Format.HexNoPad | RFID_VideoStreaming/BBB_SPI_write.c:287 | `%X` gives one or two upper-case digits, with no leading zero, whose value is the byte |
| Format.Decimal | RFID_VideoStreaming/BBB_RFID.c:438 | `%d` gives decimal digits, with no leading zero, whose value is the number |
| Format.HexStringDigits | RFID_VideoStreaming/BBB_RFID.c:391-397 | bytes printed back to back with `%.2X` put byte `i` at positions `2i` and `2i+1` |
| Format.HexStringRoundTrip | RFID_VideoStreaming/BBB_RFID.c:391-397 | the digits read back as the same bytes |
| Format.Dump | RFID_VideoStreaming/BBB_RFID.c:76-83 | the dump `transfer` prints with its print flag set is never empty and ends with the final `puts("")` |
| Format.DumpLength | RFID_VideoStreaming/BBB_SPI_write.c:57-64 | the dump of `n` bytes has three characters per byte and one line break per started group of six |
| Format.DumpEnd | RFID_VideoStreaming/BBB_SPI_write.c:58-61 | the dump up to byte `i` ends with its two digits and a space, after a line break exactly when `i` is a multiple of 6 |
| Format.DumpAt | RFID_VideoStreaming/BBB_SPI_write.c:57-64 | byte `i` stands at `DumpOffset(i)` as its two digits and a space, preceded by a line break exactly when `i` is a multiple of 6 |
| Format.DumpPrefix | RFID_VideoStreaming/BBB_SPI_write.c:58-62 | dumping more bytes only appends |
| Format.DumpRoundTrip | RFID_VideoStreaming/BBB_SPI_write.c:57-64 | every byte can be read back out of the dump, so the dump determines the reply |
| Trf7960.DecodeEncodeWord | RFID_VideoStreaming/BBB_RFID.c:312-340 | the address/command word decodes to the fields it was built from |
| Trf7960.EncodeDecodeWord | RFID_VideoStreaming/BBB_RFID.c:312-340 | every byte is the encoding of its decoded fields |
| Trf7960.Wire | RFID_VideoStreaming/BBB_RFID.c:312-454 | every frame has at least one byte and fits the `uint8_t` size `transfer` takes; its header bytes are stated by `FrameHeaders` |
| Trf7960.FrameHeaders | RFID_VideoStreaming/BBB_RFID.c:312-452 | the first byte of every frame decodes to the command or register access its comment names |
| Trf7960.TxLengthBytes | RFID_VideoStreaming/BBB_RFID.c:338-339 | the two TX length register values for a byte count encode that count with no broken byte |
| Trf7960.TxLengthRoundTrip | RFID_VideoStreaming/BBB_RFID.c:338-339 | TX length values with no broken byte are exactly the encodings of their count |
| Trf7960.InventoryFrameLayout | RFID_VideoStreaming/BBB_RFID.c:338-340 | the Inventory frame is: reset FIFO, transmit with CRC, a continuous write from TX Length Byte 1 of length 3, then the single-slot Inventory request |
| Iso15693.DecodeEncodeFlags | RFID_VideoStreaming/BBB_RFID.c:338 | request flags survive encoding and decoding |
| Iso15693.EncodeDecodeFlags | RFID_VideoStreaming/BBB_RFID.c:338 | a flags byte with the reserved bit clear is the encoding of its decoded flags |
| Iso15693.InventoryRequest | RFID_VideoStreaming/BBB_RFID.c:338 | the request is three bytes: flags that decode to the flags given, the Inventory code and mask length 0 |
| Iso15693.InventoryRequestBytes | RFID_VideoStreaming/BBB_RFID.c:338 | `26 01 00` is the single-slot, high-rate Inventory without a mask |
| Iso15693.UidOf | RFID_VideoStreaming/BBB_RFID.c:391-393 | `uid[i] = rx9[10-i]` for the eight UID bytes is reply bytes 3 to 10 in reverse order |
| Iso15693.UidOfResponse | RFID_VideoStreaming/BBB_RFID.c:384-393 | reading the FIFO after an Inventory response gives back the tag's UID, whatever the flags, DSFID and first byte |
| Iso15693.UidDependsOnTailOnly | RFID_VideoStreaming/BBB_RFID.c:391-393 | two FIFO reads give the same UID exactly when their bytes 3 to 10 agree |
| Tags.Lookup | RFID_VideoStreaming/BBB_RFID.c:401-415 | a found tag belongs to the first table entry whose UID equals the key; not found means that no entry matches |
| Tags.Classify | RFID_VideoStreaming/BBB_RFID.c:401-423 | the `memcmp` chain finds a tag only when `(uid, tag)` is a table entry, and finds none only when no entry has that UID |
| Tags.Message | RFID_VideoStreaming/BBB_RFID.c:403-423 | each branch prints one line-terminated text, and it starts with "UID:" exactly when the UID is not in the table |
| Tags.UidFileText | RFID_VideoStreaming/BBB_RFID.c:390-397 | the `uid.txt` text is two characters per UID byte and a final line break |
| Tags.ClassifyIsLookup | RFID_VideoStreaming/BBB_RFID.c:405-415 | the `memcmp` chain is the first-match lookup in the table |
| Tags.KnownTagsDistinct | RFID_VideoStreaming/BBB_RFID.c:401-404 | the four known UIDs are pairwise different |
| Tags.KnownUidsAreIso15693 | RFID_VideoStreaming/BBB_RFID.c:401-404 | every known UID starts with the ISO/IEC 15693 allocation class 0xE0 |
| Tags.ClassifyExact | RFID_VideoStreaming/BBB_RFID.c:405-415 | a UID is classified as a tag exactly when it is that tag's table entry |
| Tags.TriggerOnlyForMe | RFID_VideoStreaming/BBB_RFID.c:412-414 | the stream is started for the `Me` UID and no other |
| Tags.UnknownIffNotListed | RFID_VideoStreaming/BBB_RFID.c:415-423 | a UID matches nothing exactly when it is none of the four constants |
| Tags.UnknownMessageShowsUid | RFID_VideoStreaming/BBB_RFID.c:415-423 | an unknown UID is printed as "UID:", a line break, sixteen upper-case hexadecimal digits that read back as the UID, and a line break |
| Tags.UidFileTextRoundTrip | RFID_VideoStreaming/BBB_RFID.c:390-399 | the `uid.txt` line is sixteen upper-case hexadecimal digits that read back as the UID, then a line break |
| Irq.IrqLine.Read | RFID_VideoStreaming/BBB_RFID.c:345 | `gpio_get_value` returns the level of the next read and counts the read |
| Irq.FirstHighFromIsFirst | RFID_VideoStreaming/BBB_RFID.c:342-346 | the search for a high read stops at a high read, and every read before it is low |
| Irq.NextHighIsFirst | RFID_VideoStreaming/BBB_RFID.c:342-346 | the next high read is high, and every read before it is low |
| Irq.FirstHighUnique | RFID_VideoStreaming/BBB_RFID.c:342-346 | there is only one first high read |
| Irq.PollsUntilHigh | RFID_VideoStreaming/BBB_RFID.c:359-364 | the countdown makes at most its budget of reads |
| Irq.PollsStopAtHigh | RFID_VideoStreaming/BBB_RFID.c:360-364 | a countdown with budget makes at least one read, and one that is not spent ends on a high read |
| Irq.PollsSkipLow | RFID_VideoStreaming/BBB_RFID.c:360-364 | every read of the countdown but the last is low |
| Irq.SpentIff | RFID_VideoStreaming/BBB_RFID.c:360-369 | the countdown reaches 0 exactly when none of the first `budget - 1` reads is high, so a high line on the last read still times out |
| Irq.WaitUnbounded | RFID_VideoStreaming/BBB_SPI_write.c:253-256 | entered with `irq_status` 1 it reads nothing; otherwise it reads up to and including the next high read; it leaves `irq_status` at 1 |
| Irq.WaitBounded | RFID_VideoStreaming/BBB_RFID.c:359-364 | the countdown loop makes `PollsUntilHigh` reads, leaves `timeout` at the budget minus that, and leaves `irq_status` at the last level read |
| RfidLoop.Reader.constructor | RFID_VideoStreaming/BBB_RFID.c:276-283 | `uid` is ten zeros, and `timeout`, `irq_status`, `wFlag` start at 0 |
| RfidLoop.Reader.CaptureUid | RFID_VideoStreaming/BBB_RFID.c:390-399 | the `uid_cnt` loop stores the UID in `uid[0..8]` and leaves `uid[8..10]` alone; it builds the `uid.txt` line of that UID |
| RfidLoop.Reader.Setup | RFID_VideoStreaming/BBB_RFID.c:312-324 | the start frames are sent, then the 1 ms pause |
| RfidLoop.Reader.Query | RFID_VideoStreaming/BBB_RFID.c:326-351 | the request frames are sent and the line is waited for, with `irq_status` cleared first; the IRQ status returned is reply byte 1 of the read after the wait |
| RfidLoop.Reader.Probe | RFID_VideoStreaming/BBB_RFID.c:371-382 | the IRQ-status and FIFO-status reads are sent; the count is reply byte 1 of the second |
| RfidLoop.Reader.ReadUid | RFID_VideoStreaming/BBB_RFID.c:384-429 | the FIFO read, the UID taken from its reply, `uid.txt` written, the `memcmp` chain run and `wFlag` set |
| RfidLoop.Reader.Cleanup | RFID_VideoStreaming/BBB_RFID.c:431-454 | the six clean-up frames are sent in order, and the RSSI line prints reply byte 1 of the second |
| RfidLoop.Reader.Respond | RFID_VideoStreaming/BBB_RFID.c:370-461 | after a wait that did not time out: the status reads; the FIFO read exactly when the count is 10; the clean-up frames; the pause after a capture, which clears `wFlag` again |
| RfidLoop.Reader.Listen | RFID_VideoStreaming/BBB_RFID.c:359-364 | the bounded wait counts the `timeout` field down from 1000: it makes `PollsUntilHigh` reads and leaves `timeout` at 1000 minus them |
| RfidLoop.Reader.Await | RFID_VideoStreaming/BBB_RFID.c:355-461 | the FIFO reset and the bounded wait; nothing more on a time-out, and the response otherwise |
| RfidLoop.Reader.Prepare | RFID_VideoStreaming/BBB_RFID.c:310-351 | `timeout` set to 1000, the start and request frames, the unbounded wait and the IRQ-status read |
| RfidLoop.Reader.Conclude | RFID_VideoStreaming/BBB_RFID.c:353-468 | what follows the IRQ status (nothing unless it is 0x80), then the 500 ms pause |
| RfidLoop.Reader.Round | RFID_VideoStreaming/BBB_RFID.c:307-469 | unless an exchange aborts: the round sends exactly `Frames` of its path, does exactly `Effects` of it, stores a captured UID, and ends with `wFlag` at 0; the IRQ reads and `timeout` are as the two waits leave them. On an abort, the frames sent are the path's frames up to the failing exchange |
| RfidLoop.RoundOpening | RFID_VideoStreaming/BBB_RFID.c:312-351 | every round sends `83`, `80`, `20 21 02 00 00 C1 BB`, `09 21`, `07 13`, `6C 00 00`, `8F 91 3D 00 30 26 01 00` first, then reads the IRQ status |
| RfidLoop.RoundFrames | RFID_VideoStreaming/BBB_RFID.c:353-466 | nothing follows the status read exactly when the status is not 0x80; a time-out adds only the FIFO reset; otherwise the status reads follow, then the FIFO read on a capture, then the clean-up frames |
| RfidLoop.FifoReadOnCapture | RFID_VideoStreaming/BBB_RFID.c:384-388 | the FIFO is read exactly in rounds that capture a UID |
| RfidLoop.CleanupOnResponse | RFID_VideoStreaming/BBB_RFID.c:431-454 | a round ends with the clean-up frames exactly when the response came in, whether or not a UID was read |
| RfidLoop.PathConditions | RFID_VideoStreaming/BBB_RFID.c:353-393 | a round is rejected exactly when the IRQ status is not 0x80. It times out exactly when, in addition, none of the first 999 bounded reads is high. It captures exactly when the wait succeeded and the FIFO count is 10, and the UID comes from the FIFO reply |
| RfidLoop.CaptureLaunches | RFID_VideoStreaming/BBB_RFID.c:405-414 | a capture starts the stream once for `Me` and never otherwise |
| RfidLoop.RoundLaunches | RFID_VideoStreaming/BBB_RFID.c:405-414 | a round starts the stream exactly once when it captures `Me`, and never otherwise |
| RfidLoop.RoundEffects | RFID_VideoStreaming/BBB_RFID.c:324-468 | the effects path by path: the set-up pause; on a response, the capture (`uid.txt`, the `memcmp` chain), the RSSI line and the 1 s pause after a capture; always the 500 ms pause |
| RfidLoop.RoundWritesUidFile | RFID_VideoStreaming/BBB_RFID.c:390-399 | `uid.txt` is written exactly in rounds that capture a UID, with that UID's line |
| RfidLoop.ExchangeRoles | RFID_VideoStreaming/BBB_RFID.c:349-437 | the replies the round reads come from the frames meant for them: the IRQ-status read, the FIFO status, the FIFO and the RSSI level |
| RfidLoop.RoundConsole | RFID_VideoStreaming/BBB_RFID.c:405-438 | a round prints the tag line when it captures a UID, then the RSSI line whenever the response came in, and nothing else |
| RfidLoop.ResponseConsole | RFID_VideoStreaming/BBB_RFID.c:405-438 | what the response part of a round prints |
| SpiWriteLoop.Reader.constructor | RFID_VideoStreaming/BBB_SPI_write.c:39 | `timeout` starts at 1000*1000 and `irq_status` at 0 |
| SpiWriteLoop.Reader.Setup | RFID_VideoStreaming/BBB_SPI_write.c:219-231 | the start frames are sent, then the 1 ms pause |
| SpiWriteLoop.Reader.Query | RFID_VideoStreaming/BBB_SPI_write.c:233-261 | the request frames are sent; the wait starts from the `irq_status` carried in, so it reads nothing when that is 1; then the IRQ-status read |
| SpiWriteLoop.Reader.Probe | RFID_VideoStreaming/BBB_SPI_write.c:282-292 | the IRQ-status read prints "irq error" exactly when its byte is not 0x80, and the FIFO-status read follows |
| SpiWriteLoop.Reader.ReadFifo | RFID_VideoStreaming/BBB_SPI_write.c:295-300 | the FIFO read with the hex dump of its reply printed |
| SpiWriteLoop.Reader.Cleanup | RFID_VideoStreaming/BBB_SPI_write.c:302-325 | the six clean-up frames are sent in order, and the RSSI line prints reply byte 1 of the second |
| SpiWriteLoop.Reader.Respond | RFID_VideoStreaming/BBB_SPI_write.c:281-326 | after a wait that did not time out: the status reads, the FIFO read (always, since `irq_status` is 1 there) and the clean-up frames |
| SpiWriteLoop.Reader.Listen | RFID_VideoStreaming/BBB_SPI_write.c:269-275 | `irq_status` cleared, then the bounded wait counts the `timeout` field down from 1000, leaving it at 1000 minus the reads made |
| SpiWriteLoop.Reader.Await | RFID_VideoStreaming/BBB_SPI_write.c:265-326 | the FIFO reset and the bounded wait; "timed out" printed on a time-out, and the response otherwise |
| SpiWriteLoop.Reader.Prepare | RFID_VideoStreaming/BBB_SPI_write.c:217-261 | `timeout` is 1000 afterwards, whatever the previous round left; the start and request frames, the wait and the IRQ-status read |
| SpiWriteLoop.Reader.Conclude | RFID_VideoStreaming/BBB_SPI_write.c:263-334 | the error line when the IRQ status is not 0x80, or what follows 0x80; then the 100 ms pause; `timeout` is left at 1000 minus the bounded reads, so at 1000 on the error path |
| SpiWriteLoop.Reader.Round | RFID_VideoStreaming/BBB_SPI_write.c:215-335 | unless an exchange aborts: the round sends exactly `Frames` of its outcome and does exactly `Effects` of it; `timeout` is 1000 minus the bounded reads; `irq_status` is 1 unless the round timed out, in which case it is the last level read. On an abort, the frames sent are the outcome's frames up to the failing exchange |
| SpiWriteLoop.RoundOpening | RFID_VideoStreaming/BBB_SPI_write.c:219-261 | every round opens with the same seven frames and status read as a round of BBB_RFID.c |
| SpiWriteLoop.RoundFrames | RFID_VideoStreaming/BBB_SPI_write.c:263-331 | nothing follows the status read exactly when it is not 0x80; only the FIFO reset exactly on a time-out; otherwise the status reads, the FIFO read and the clean-up frames |
| SpiWriteLoop.FifoReadAndCleanupOnResponse | RFID_VideoStreaming/BBB_SPI_write.c:290-325 | the FIFO read and the clean-up frames are sent exactly when the response came in, with no check of the FIFO count |
| SpiWriteLoop.OutcomeConditions | RFID_VideoStreaming/BBB_SPI_write.c:259-280 | a round is rejected exactly when the IRQ status is not 0x80, and times out exactly when, in addition, none of the first 999 bounded reads is high |
| SpiWriteLoop.CarriedStatus | RFID_VideoStreaming/BBB_SPI_write.c:207-256 | the wait for the Inventory IRQ reads nothing exactly when `irq_status` is carried in as 1; otherwise it stops at the first high read |
| SpiWriteLoop.RoundConsole | RFID_VideoStreaming/BBB_SPI_write.c:277-330 | a round prints exactly one of: the " ERROR: 0x…. " line; "timed out"; or the "irq error" line when the second status is not 0x80, the dump of the FIFO reply and the RSSI line |

## Left out

- The LEDs, written through sysfs files by `setLED`, have no bearing on the round and are not
  modelled.
- The GPIO set-up and the SPI device set-up done by `init` and the start of `main` are not
  modelled. `open`, and the `ioctl`s for mode, bits and speed, are not modelled either. The
  bus is given as the `Chip` oracle and the IRQ line as the `level` oracle.
- `parse_opts` and `print_usage` are not modelled. They depend on `getopt_long` and on kernel
  header constants.
- `startVideoStream` is not modelled as such. `fork`/`execv` is recorded as the `Announced`
  effect of the `Me` UID, and `LaunchCount` counts it. `spiDeviceTreeInit` and callhello.c
  are not part of this model.
- `usleep` and `sleep` are `Pause` effects carrying their duration. No time passes in the
  model.
- File and console I/O are effects that carry their text. `uid.txt` is written as one
  `UidFileWritten` effect, which carries the whole line.
- The commented-out code is not modelled: the frame sequences and the prints of BBB_RFID.c.
  This includes the comparison of the second IRQ status with 0x40, which only guards a
  commented-out print. `RfidLoop.Reader.Probe` therefore reads that status and ignores it.
- `Irq.WaitUnbounded` requires the IRQ line to go high at some later read when it has to wait.
  This is an assumption about the hardware, since the C loop has no bound. `Round` in both
  modules carries the same requirement.
- RfidLoop.Reader.Round, SpiWriteLoop.Reader.Round: after an abort, only the frames sent are
  stated. `abort()` ends the process, so the rest of the state no longer matters.
- The IRQ line's `level` is read as a function of the read count, so the time between reads is
  not modelled.
- Two facts about the code that shape the model:
  - the clean-up frames are sent only when the wait for the response did not time out:
    BBB_RFID.c:431-454 and BBB_SPI_write.c:302-325 lie inside the branch taken when
    `timeout` is not 0, so a rejected or timed-out round sends none of them;
  - BBB_SPI_write.c:295 guards the FIFO read with `irq_status`, which is always 1 there,
    because that branch is reached only when the bounded wait ended on a high read before its
    countdown ran out. `SpiWriteLoop.Reader.Respond` keeps the test.
- The order of SPI exchanges relative to pauses and prints is not modelled. The frames go to
  the bus trace `bus.sent` and the effects to the separate `log`, so no contract says how the
  two interleave. For example, the 1 ms pause comes between the chip set-up frame and the
  SYS_CLK frame (BBB_RFID.c:322-328), the `rssi:` line comes between the RSSI read and the
  remaining clean-up frames (BBB_RFID.c:436-445, BBB_SPI_write.c:310-314), and the
  end-of-round pauses come after the clean-up frames. Each of the two sequences is stated in
  full and in order.
