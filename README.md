# DS1302 protocol engine in Dafny

A model of the protocol engine of the DS1302 Control Library
(`src/libds1302/libds1302.c`). The library drives a DS1302 real-time-clock
chip over a 3-wire serial bus: clock, data and chip-enable, each on a GPIO pin.
The model covers four things:

- the BCD codec and the range and pin checks;
- the bit and byte channel and the command transactions, with their framing;
- every register accessor, including their read-modify-write of the flags
  that share a register with a time field;
- the date-write transaction.

The model has five modules, one per layer:

| file | module | what it holds |
|---|---|---|
| `codec.dfy` | `Codec` | `ds1302_encode`, `ds1302_decode`, `ds1302_check_range`, `ds1302_check_device` as pure functions over `bv8`, plus their round-trip and masking lemmas |
| `wire.dfy` | `Wire` | bit order, the GPIO events, and the event sequences of a bit, a byte and a command. Also an observer that replays a trace on the lines and recovers the bits clocked out and sampled |
| `chip.dfy` | `Chip` | the chip at the far end of the bus, as an abstract register store. It reacts to clock and chip-enable edges, so reads and writes can be stated as register reads and stores |
| `registers.dfy` | `Registers` | the address map, the decode tags and the ranges of the seven time fields. Also the flag bytes, the write plan of `ds1302_write_date` and what that plan leaves in the registers |
| `driver.dfy` | `Driver` | class `Bus`, whose fields are the host's line levels, the data-line direction, the chip and the trace of GPIO calls. Its methods are the C functions, each proved against the pure layers |

How C is mapped:

- `uint8_t` is `bv8`, so C's truncation to eight bits happens as in C.
- In `ds1302_write_date`, the sum of written minus read values is computed in
  `int` and reduced modulo 256, which is what the `uint8_t` return does.
- Where the C code prints and calls `exit(1)`, the model returns
  `Err(RangeError(min, max, value))` (range and pin checks) or
  `Err(LengthError(length))` (an unknown decode width). The error is
  propagated exactly where the program would stop. Nothing after that point
  happens: no GPIO call, no register change.
- The six range-checked writes of `ds1302_write_date` run one after the
  other, and the first that fails its range check ends the program. The
  model writes them with `Bus.WriteDateStores`, which makes the store at
  position k and then goes on from position k + 1. Each position is one of
  the six writes, in the order the C code makes them.
- Each wiringPi call appends one `Wire.Event` to `Bus.trace`:
  - `pinMode` → `SetMode`;
  - `digitalWrite` → `Drive`;
  - `digitalRead` → `Sample`, with the level it read;
  - `delayMicroseconds` → `Delay`;
  - `wiringPiSetupGpio` → `InitGpio`.
- The chip sees the edges the driver makes:
  - a chip-enable edge starts a transfer afresh;
  - a rising clock edge latches the data line;
  - a read command makes the chip drive the data line one bit per falling edge;
  - the sixteenth bit of a write command stores the data byte.
- Each register has a mask: the bits it keeps on a store. An all-ones mask is
  an ideal register. Properties that depend on a register returning what was
  written are stated under that hypothesis.

Two behaviours of the code that a reader may not expect:

- `ds1302_write_clock_halt` or-s the flag into bit 0 of the seconds
  register, not bit 7, so it never stops the clock. The command-line
  program calls it with 1 to stop the clock and with 0 to start it
  (`src/ds1302.c:90-98`). The model follows the code (see Findings).
- `ds1302_write_date` returns the sum modulo 256, so a zero result does
  not mean every field read back as written: `Registers.DateDiffAmbiguous`
  shows two date pairs that differ yet give 0.

## Model

| member | source | states |
|---|---|---|
| Codec.Device | src/libds1302/libds1302.h:96-101 | the device handle: the three pin numbers, clock, data and chip-enable, each a byte, never changed after setup |
| Codec.Encode | src/libds1302/libds1302.c:240-243 | the BCD byte of a value: the tens digit shifted into the high nibble, or-ed with the ones digit, cut to eight bits |
| Codec.EncodeDigits | src/libds1302/libds1302.c:240-243 | for v ≤ 99, the high nibble of encode(v) is v / 10 and the low nibble is v % 10 |
| Codec.EncodeTruncates | src/libds1302/libds1302.c:240-243 | encode computed in `bv8` is the 16-bit C expression cut to its low eight bits, for every input including v > 99 |
| Codec.EncodeExamples | src/libds1302/libds1302.c:240-243 | encode(0) = 0x00, encode(45) = 0x45, encode(99) = 0x99 |
| Codec.Decode | src/libds1302/libds1302.c:245-270 | decode fails exactly when the width tag is above 8, and then with that tag as the error |
| Codec.DecodeOnes | src/libds1302/libds1302.c:249-256 | tags 0 to 4 return the ones bits their mask keeps (tag 0 returns 0) |
| Codec.DecodeTens | src/libds1302/libds1302.c:249-260 | tags 5 to 8 return the ones digit plus ten times the tens bits the tag's mask keeps |
| Codec.DecodeValue | src/libds1302/libds1302.c:245-270 | for every tag ≤ 8, decode is the BCD value of the input under the tag's mask |
| Codec.DecodeEncode | src/libds1302/libds1302.c:240-270 | for v ≤ 99 and tag ≤ 8, decode(tag, encode(v)) = v if and only if v is within the tag's range (tag 8: 99, 7: 79, 6: 39, 5: 19, 4: 9, 3: 7, 2: 3, 1: 1, 0: 0) |
| Codec.DecodeIgnoresUnmasked | src/libds1302/libds1302.c:249-260 | bits outside a tag's mask never change the decoded value |
| Codec.DecodeSecondsIgnoresHalt | src/libds1302/libds1302.c:274-279 | decode(7, 0x80 \| x) = decode(7, x): the clock-halt flag never changes the seconds read |
| Codec.CheckRange | src/libds1302/libds1302.c:208-227 | Ok(v) exactly when min ≤ v ≤ max, otherwise the range error carrying min, max and v |
| Codec.CheckDevice | src/libds1302/libds1302.c:229-236 | succeeds, returning the device unchanged, exactly when all three pins lie in [2, 27]; otherwise the error names the first bad pin in the order clock, data, chip-enable |
| Wire.BitValue | src/libds1302/libds1302.c:141 | `(byte >> i) & 1` is 0 or 1, and is 1 exactly when bit i is set |
| Wire.Place | src/libds1302/libds1302.c:153 | `b << i` for a bit b that is 0 or 1 is 0 or the byte with only bit i set |
| Wire.Bits | src/libds1302/libds1302.c:140-142 | the bit sequence of a byte, least-significant first, has eight elements |
| Wire.FromBits | src/libds1302/libds1302.c:151-154 | the byte read_byte accumulates from a level sequence: the k-th level or-ed in as bit k, starting from 0 |
| Wire.ReadByteStep | src/libds1302/libds1302.c:151-154 | one round of read_byte: or-ing the bit read, shifted to position i, into the byte assembled from the first i levels gives the byte assembled from i + 1 levels |
| Wire.FromBitsBit | src/libds1302/libds1302.c:151-154 | bit i of the byte or-ed together from a bit sequence is the i-th bit of the sequence, and clear beyond its end |
| Wire.FromBitsOfBits | src/libds1302/libds1302.c:138-157 | assembling the bits a byte is sent as gives the byte back |
| Wire.BitsOfFromBits | src/libds1302/libds1302.c:138-157 | splitting the byte assembled from eight bits gives those bits back |
| Wire.WriteBitEvents | src/libds1302/libds1302.c:108-123 | the calls of one bit write, in order: data to the level, 1 us, clock high, 2 us, data low, 1 us, clock low |
| Wire.ReadBitEvents | src/libds1302/libds1302.c:125-136 | the calls of one bit read, in order: sample the data line, 1 us, clock high, 1 us, clock low, 1 us |
| Wire.StartEvents | src/libds1302/libds1302.c:82-86 | start of transfer: chip-enable high, then 5 us |
| Wire.StopEvents | src/libds1302/libds1302.c:88-93 | stop of transfer: clock low, chip-enable low, data low |
| Wire.ReadCommandEvents | src/libds1302/libds1302.c:161-176 | the calls of a read command: start of transfer, data line to output, the bits of `command \| 0x01`, data line to input and 1 us, the eight samples of the value, stop of transfer |
| Wire.WriteCommandEvents | src/libds1302/libds1302.c:178-189 | the calls of a write command: start of transfer, data line to output, the bits of `command & 0xFE`, the bits of the value, stop of transfer |
| Wire.SendEvents | src/libds1302/libds1302.c:108-123 | a sent bit sequence takes seven GPIO events per bit |
| Wire.ReceiveEvents | src/libds1302/libds1302.c:125-136 | a received bit sequence takes six GPIO events per bit |
| Wire.ObserveAppend | src/libds1302/libds1302.c:108-136 | replaying two traces one after the other is replaying their concatenation |
| Wire.WriteBitObserved | src/libds1302/libds1302.c:108-123 | the events of one written bit clock out exactly that bit at the rising edge, and leave clock and data low |
| Wire.ReadBitObserved | src/libds1302/libds1302.c:125-136 | the events of one read bit sample exactly one level and clock out nothing while the data line is an input |
| Wire.SendObserved | src/libds1302/libds1302.c:138-145 | the events of a sent bit sequence clock out exactly that sequence, in order |
| Wire.ReceiveObserved | src/libds1302/libds1302.c:147-157 | the events of a received bit sequence sample exactly that sequence, in order, and clock out nothing |
| Wire.StartWriteObserved | src/libds1302/libds1302.c:82-86 | start of transfer plus start of write leave chip-enable high and the data line an output |
| Wire.StopObserved | src/libds1302/libds1302.c:88-93 | stop of transfer leaves clock, chip-enable and data low |
| Wire.StartReadObserved | src/libds1302/libds1302.c:95-99 | start of read makes the data line an input |
| Wire.ReadCommandObserved | src/libds1302/libds1302.c:161-176 | a read command clocks out exactly the command with bit 0 set, samples exactly the eight bits of the value, and ends with all lines low |
| Wire.WriteCommandObserved | src/libds1302/libds1302.c:178-189 | a write command clocks out exactly the command with bit 0 clear, then the value, and ends with all lines low |
| Wire.CommandsFramed | src/libds1302/libds1302.c:82-93 | every read and write command trace begins with chip-enable high and ends with clock low, chip-enable low, data low |
| Chip.Index | src/libds1302/libds1302.c:168 | the register a command byte selects is one of 128 |
| Chip.StoreHits | src/libds1302/libds1302.c:183-184 | a store changes the addressed register to the written bits its mask keeps |
| Chip.StoreMisses | src/libds1302/libds1302.c:183-184 | a store leaves every other register as it was |
| Chip.StoreAllMiss | src/libds1302/libds1302.c:427-433 | a sequence of stores none of which addresses register j leaves j unchanged |
| Chip.StoreAllHit | src/libds1302/libds1302.c:427-433 | after a sequence of stores, a register holds the last value stored there |
| Chip.CommandPhase | src/libds1302/libds1302.c:161-168 | the eight command bits latched after a chip-enable edge are the transfer's command, and a read command makes the chip start presenting data |
| Chip.DataPhase | src/libds1302/libds1302.c:183-184 | after a write command, the chip stores the data byte at the eighth data bit, and not before |
| Chip.ClocksDuringRead | src/libds1302/libds1302.c:147-157 | during a read, each clock pulse moves the chip one bit on and changes nothing else |
| Chip.ReadPhase | src/libds1302/libds1302.c:147-157 | the levels sampled during a read are the addressed register's bits, least-significant first |
| Chip.ReadTransaction | src/libds1302/libds1302.c:161-176 | a read command followed by eight clock pulses samples the bits of the register selected by `command \| 0x01`, and the closing chip-enable edge leaves the chip as it was |
| Chip.WriteTransaction | src/libds1302/libds1302.c:178-189 | a write command followed by a data byte and the closing chip-enable edge is exactly one store of the byte at `command & 0xFE` |
| Chip.ReadBackSameRegister | src/libds1302/libds1302.c:183-196 | `command \| 0x01` and `command & 0xFE` select the same register as the command |
| Chip.StoredReadBack | src/libds1302/libds1302.c:191-203 | the read-back of ds1302_write_and_check finds the written value under the register's mask |
| Registers.WriteAddress | src/libds1302/libds1302.c:350-404 | the write command of each field's register, as each ds1302_write_* accessor passes it: 0x80 seconds to 0x8C year, bit 0 clear |
| Registers.ReadAddress | src/libds1302/libds1302.c:274-322 | the read command of each field's register, as each ds1302_read_* accessor passes it: 0x81 seconds to 0x8D year, bit 0 set |
| Registers.Tag | src/libds1302/libds1302.c:274-322 | the width tag each read accessor passes to ds1302_decode: 7 for seconds and minutes, 6 for hours and day of month, 5 for month, 3 for weekday, 8 for year |
| Registers.Min | src/libds1302/libds1302.c:274-404 | the lower bound of each field's range check, the same in the read and the write accessor: 1 for day of month, month and weekday, 0 for the rest |
| Registers.Max | src/libds1302/libds1302.c:274-404 | the upper bound of each field's range check: 59 for seconds and minutes, 24 for hours, 31, 12 and 7 for day of month, month and weekday, 99 for year |
| Registers.InRange | src/libds1302/libds1302.c:208-227 | a value passes its field's range check exactly when Min ≤ value ≤ Max |
| Registers.AddressMap | src/libds1302/libds1302.c:274-416 | each field's read address is its write address with bit 0 set; distinct fields use distinct registers, none of them the write-protect register, whose commands are 0x8E (WriteProtectWrite) and 0x8F (WriteProtectRead) |
| Registers.FieldValue | src/libds1302/libds1302.c:274-322 | a field read succeeds exactly when the BCD value under the field's mask is in the field's range, returns that value, and otherwise fails with the field's range |
| Registers.FieldRoundTrip | src/libds1302/libds1302.c:274-404 | every in-range value of a field, once encoded, reads back as itself |
| Registers.SecondsIgnoreHalt | src/libds1302/libds1302.c:274-279 | the seconds read is the same whether the halt flag is set or clear |
| Registers.TopBit | src/libds1302/libds1302.c:324-346 | `(0x80 & raw) >> 7`, the clock-halt and write-protect reads |
| Registers.Mode24 | src/libds1302/libds1302.c:329-336 | 0 when `(0x80 & raw) >> 7` is non-zero, else 1, the 24-hour read |
| Registers.PmFlag | src/libds1302/libds1302.c:338-341 | `(0x20 & raw) >> 5`, the PM read |
| Registers.FlagsAreBits | src/libds1302/libds1302.c:324-346 | the halt, write-protect, 24-hour and PM reads are 0 or 1: bit 7, the complement of bit 7, and bit 5 |
| Registers.SecondsByte | src/libds1302/libds1302.c:354-359 | the byte the seconds write stores: bit 7 of the seconds register as read, or-ed with the encoded seconds |
| Registers.SecondsWriteKeepsHalt | src/libds1302/libds1302.c:350-361 | the byte the seconds write stores keeps the halt flag it read, and its seconds read back as written |
| Registers.HoursWriteIs24h | src/libds1302/libds1302.c:329-376 | for h ≤ 24 the stored hours byte has bit 7 clear, so the 24-hour read returns 1; bit 5 is set exactly for h ≥ 20; and the hours read back as h |
| Registers.FieldStore | src/libds1302/libds1302.c:363-404 | after storing an encoded in-range value in an ideal register, the field reads back as the value; after an hours write the 24-hour read returns 1 whatever the mask |
| Registers.ClockHaltByte | src/libds1302/libds1302.c:408-410 | the byte the clock-halt write stores, as written: the seconds register as read with bit 7 cleared, or-ed with `ch & 1` |
| Registers.ClockHaltByteBits | src/libds1302/libds1302.c:406-411 | the byte the clock-halt write stores has bit 7 clear, bits 1 to 6 as read, and bit 0 equal to bit 0 read or-ed with ch's low bit |
| Registers.ClockHaltCounterexample | src/libds1302/libds1302.c:406-411 | on a halted chip at 0 seconds, writing ch = 1 clears the halt flag and turns the seconds into 1 |
| Registers.IntendedClockHalt | src/libds1302/libds1302.c:406-411 | the corrected byte has bit 7 equal to ch's low bit and leaves the seconds bits and the seconds read as they were |
| Registers.WriteProtectByte | src/libds1302/libds1302.c:415 | the byte the write-protect write stores: `(wp & 1) << 7` |
| Registers.WriteProtectRoundTrip | src/libds1302/libds1302.c:413-416 | the write-protect byte has bit 7 equal to wp's low bit and every other bit clear |
| Registers.DateFields | src/libds1302/libds1302.c:428-433 | the order in which ds1302_write_date writes the fields: year, month, day of month, hours, minutes, seconds |
| Registers.Values | src/libds1302/libds1302.c:419-433 | the six arguments of ds1302_write_date in that same order |
| Registers.ValidPrefix | src/libds1302/libds1302.c:427-433 | the number of date fields, in write order, that pass their range check before the first that fails; at most six |
| Registers.PrefixAt | src/libds1302/libds1302.c:427-433 | a field up to the first failing one is in range exactly when it comes before the first failing one |
| Registers.ValidPrefixMeaning | src/libds1302/libds1302.c:427-433 | every field before the prefix's end is in range, and the field at its end, if any, is not |
| Registers.DatePlan | src/libds1302/libds1302.c:427-433 | the date write makes seven stores |
| Registers.DateChip | src/libds1302/libds1302.c:427-433 | the chip after the first n stores of the plan is a well-formed chip with unchanged masks |
| Registers.DateChipStores | src/libds1302/libds1302.c:427-433 | the chip after the first n stores of the plan is the chip that has taken those n stores in order, one after another |
| Registers.DateFieldWrite | src/libds1302/libds1302.c:428-432 | store k of the plan, for k from 1 to 5, writes the encoding of the k-th field, in writing order, at that field's write address; that field is never the seconds |
| Registers.DateKeepsSeconds | src/libds1302/libds1302.c:427-433 | none of the stores before the seconds store touches the seconds register, so the seconds write reads the halt flag as it was when the transaction began |
| Registers.DateWriteProtectFirstOnly | src/libds1302/libds1302.c:427-433 | the first store clears write protection, and no later store touches the write-protect register |
| Registers.DateSlot | src/libds1302/libds1302.c:427-433 | the register of each store of the plan is one of the 128 |
| Registers.DateChipSlot | src/libds1302/libds1302.c:427-433 | after n stores, the register of each store among them holds that store's value under its mask; no later store of the plan overwrites it |
| Registers.DateRegisters | src/libds1302/libds1302.c:427-433 | after the whole plan: write-protect is 0, and year, month, day, hours and minutes hold their encodings. The seconds register holds the encoded seconds with the halt flag found at the start. All of these are under each register's mask |
| Registers.ReadDate | src/libds1302/libds1302.c:435-442 | the six field reads of the read-back, year to seconds, each decoded and range-checked; the first that fails is the error |
| Registers.DateDiff | src/libds1302/libds1302.c:435-442 | the sum of written minus read over the six fields, computed in `int` and reduced modulo 256 as the `uint8_t` return does |
| Registers.DateOutcome | src/libds1302/libds1302.c:435-442 | the return value of ds1302_write_date after the write phase: the error of the first failing read, else the modulo-256 sum of written minus read |
| Registers.ReadDateOk | src/libds1302/libds1302.c:435-442 | when all six fields read back as a date, the read-back succeeds with that date and the result of the date write is 0 |
| Registers.WriteDateIdeal | src/libds1302/libds1302.c:418-443 | on ideal registers and with every field in range, the registers after the write read back as the date written, and the result is 0 |
| Registers.DateDiffAmbiguous | src/libds1302/libds1302.c:435-442 | the modulo-256 sum is 0 for two pairs of dates that differ, so 0 does not prove a match |
| Driver.Bus.constructor | src/libds1302/libds1302.c:59-78 | the hardware as `ds1302_setup` finds it: any line levels and data direction; a well-formed chip, which has no transfer in progress while chip-enable is low; an empty trace |
| Driver.Bus.InitGpio | src/libds1302/libds1302.c:69 | records the GPIO initialisation and changes nothing else |
| Driver.Bus.SetMode | src/libds1302/libds1302.c:71-73 | sets the data line's direction when the line is data, and records the call |
| Driver.Bus.DriveCe | src/libds1302/libds1302.c:31-32 | a chip-enable edge abandons the chip's transfer; the call is recorded |
| Driver.Bus.DriveClk | src/libds1302/libds1302.c:34-35 | with chip-enable high, a rising clock edge is a chip rise at the data level and a falling one a chip fall |
| Driver.Bus.DriveDat | src/libds1302/libds1302.c:37 | `DAT_HI` here and `DAT_LO` at :39: sets the data level and records the call |
| Driver.Bus.ReadDat | src/libds1302/libds1302.c:41 | the level read is the chip's bit while it drives the line, otherwise the level last written; the sample is recorded |
| Driver.Bus.Delay | src/libds1302/libds1302.c:43-45 | a delay records its length and changes nothing else |
| Driver.Bus.Setup | src/libds1302/libds1302.c:59-78 | pins out of range: the error of ds1302_check_device and no GPIO call. Otherwise: GPIO initialisation, the three lines set as outputs, a stop transfer, a ready bus whose chip has abandoned any transfer, and that exact trace |
| Driver.Bus.StartTransfer | src/libds1302/libds1302.c:82-86 | raises chip-enable and waits 5 us; the chip starts with no transfer in progress |
| Driver.Bus.StopTransfer | src/libds1302/libds1302.c:88-93 | clock low, chip-enable low, data low, in that order; a transfer in progress is abandoned |
| Driver.Bus.StartRead | src/libds1302/libds1302.c:95-99 | the data line becomes an input, then a 1 us delay |
| Driver.Bus.StartWrite | src/libds1302/libds1302.c:101-104 | the data line becomes an output |
| Driver.Bus.WriteBit | src/libds1302/libds1302.c:108-123 | returns the bit; any non-zero bit is sent high; the chip sees one clock pulse at that level; data ends low; exactly the seven events of a written bit |
| Driver.Bus.ReadBit | src/libds1302/libds1302.c:125-136 | returns 1 or 0 as the level read; the chip sees one clock pulse; exactly the six events of a read bit |
| Driver.Bus.WriteByte | src/libds1302/libds1302.c:138-145 | returns the byte; the chip receives its eight bits least-significant first; exactly the events of those bits |
| Driver.Bus.ReadByte | src/libds1302/libds1302.c:147-157 | the result is the byte assembled from the eight levels read, the k-th into bit k; the chip is clocked eight times |
| Driver.Bus.ReadCommand | src/libds1302/libds1302.c:161-176 | returns the register selected by `command \| 0x01` and leaves the chip unchanged; the trace is exactly a read command |
| Driver.Bus.WriteCommand | src/libds1302/libds1302.c:178-189 | returns the value; the chip's only change is the store of the value at `command & 0xFE`; the trace is exactly a write command |
| Driver.Bus.WriteAndCheck | src/libds1302/libds1302.c:191-203 | returns the intended value whatever the read-back; one store; the trace is the write command, then a read command that reads the stored bits |
| Driver.Bus.ReadField | src/libds1302/libds1302.c:274-322 | a field read is the field's decode and range check of its register, changes nothing, and is one read command at the field's address |
| Driver.Bus.ReadClockHalt | src/libds1302/libds1302.c:324-327 | bit 7 of the seconds register, by one read command at 0x81 |
| Driver.Bus.Read24hMode | src/libds1302/libds1302.c:329-336 | 1 when bit 7 of the hours register is clear, else 0, by one read command at 0x85 |
| Driver.Bus.ReadPm | src/libds1302/libds1302.c:338-341 | bit 5 of the hours register, by one read command at 0x85 |
| Driver.Bus.ReadWriteProtect | src/libds1302/libds1302.c:343-346 | bit 7 of the write-protect register, by one read command at 0x8F |
| Driver.Bus.WriteSeconds | src/libds1302/libds1302.c:350-361 | out of range (above 59): the error, with no bus access. Otherwise: one read of the seconds register, then one checked write of the halt flag read or-ed with the encoded seconds. On an ideal register the halt flag is kept and the seconds read back as written |
| Driver.Bus.WriteField | src/libds1302/libds1302.c:363-404 | out of range: the field's range error, with no bus access. Otherwise one checked write of the encoded value at the field's address. On an ideal register the field reads back as written, and after an hours write the chip is in 24-hour mode |
| Driver.Bus.WriteClockHalt | src/libds1302/libds1302.c:406-411 | as written: one read of the seconds register, then a checked write of its low seven bits or-ed with `ch & 1`; the halt flag always ends clear |
| Driver.Bus.WriteClockHaltIntended | src/libds1302/libds1302.c:406-411 | corrected: stores the seconds byte with bit 7 set to ch's low bit, by the same read and checked write as the code; on an ideal register the halt flag reads back as ch's low bit, and the seconds read is unchanged |
| Driver.Bus.WriteWriteProtect | src/libds1302/libds1302.c:413-416 | one checked write of `(wp & 1) << 7` at 0x8E; on an ideal register the write-protect flag reads back as wp's low bit |
| Driver.Bus.WriteDateUnprotect | src/libds1302/libds1302.c:427 | the first store of the date plan, write protection off; the chip moves to the plan's first store and the trace gains exactly that store's events |
| Driver.Bus.WriteDateField | src/libds1302/libds1302.c:428-432 | the k-th field store of the plan. It succeeds exactly when the field is in range; then the chip moves one store along the plan and the rest of the write phase ends with the same trace, so the trace has gained exactly the field's checked write. On failure the chip and trace are untouched and the error is that field's range error |
| Driver.Bus.WriteDateSeconds | src/libds1302/libds1302.c:433 | the seconds store of the plan, succeeding exactly when the seconds are in range; it keeps the halt flag found at the start, and the trace becomes the one the write phase ends with: the read of the seconds register and the checked write, or nothing |
| Driver.Bus.WriteDateStores | src/libds1302/libds1302.c:428-433 | the field stores from the k-th on, in writing order, stopping at the first field out of range with its error; the chip takes the plan's stores up to that point, and the trace becomes exactly the one the write phase ends with |
| Driver.Bus.WriteDateRegisters | src/libds1302/libds1302.c:427-433 | the chip has taken exactly the plan's stores up to and including the first failing field's check, and the trace gains exactly their events. The result is Ok exactly when all six fields are in range, and otherwise the first bad field's range error |
| Driver.Bus.ReadDateRegisters | src/libds1302/libds1302.c:435-442 | the six field reads, left to right, change nothing; the result is the date or the first read's error; the trace gains exactly the reads made |
| Driver.Bus.WriteDate | src/libds1302/libds1302.c:418-443 | the first out-of-range field stops the transaction with its error, after the stores before it. Otherwise the result is the read-back's error or the modulo-256 sum of written minus read. The trace is the write phase's events, then the read-back's when every field was in range |
| Driver.CheckedWriteEvents | src/libds1302/libds1302.c:191-203 | the calls of ds1302_write_and_check: a write command of the value, then a read command at `command \| 0x01` and the byte it reads |
| Driver.DateStoreEvents | src/libds1302/libds1302.c:427-433 | the calls of store k of ds1302_write_date: the checked write of write-protect 0, a field's checked write of its encoding, or the read of the seconds register followed by the seconds' checked write |
| Driver.DateStorePlan | src/libds1302/libds1302.c:427-432 | the events of each store before the seconds are the checked write of that store of the plan, with the read-back the register's mask leaves |
| Driver.SecondsStorePlan | src/libds1302/libds1302.c:433 | the seconds store's events are the read of the seconds register, then the checked write of the plan's last store |
| Driver.DateStoreTrace | src/libds1302/libds1302.c:427-433 | the trace the write phase ends with when it reaches store k with a given trace: the events of stores k, k + 1, ... up to the first field out of range |
| Driver.DateWriteTrace | src/libds1302/libds1302.c:427-433 | the trace the write phase ends with from a given trace: store 0, then the field stores up to the first field out of range |
| Driver.DateWriteEvents | src/libds1302/libds1302.c:427-433 | the events of the first n stores, in order |
| Driver.DateStoreTraceCancel | src/libds1302/libds1302.c:427-433 | the rest of the write phase only appends: two traces it takes to the same trace are the same |
| Driver.DateStoreTraceStores | src/libds1302/libds1302.c:427-433 | reached with the first k stores made, the write phase appends exactly the stores up to the first failing field's check, none after |
| Driver.DateWriteTraceStores | src/libds1302/libds1302.c:427-433 | the write phase appends exactly the events of the first ValidPrefix(d) + 1 stores of the plan |
| Driver.FieldStoreTrace | src/libds1302/libds1302.c:428-432 | at store k, a field in range contributes its checked write and the phase goes on; a field out of range ends the phase with the trace as it is |
| Driver.FieldStoreExact | src/libds1302/libds1302.c:428-432 | a trace from which the rest of the phase at store k + 1 ends where the given trace at store k ends is the given trace plus exactly field k's checked write |
| Driver.SecondsStoreTrace | src/libds1302/libds1302.c:433 | at store 6, seconds in range contribute the read of the seconds register and the checked write; out of range, nothing |
| Driver.FieldReadEvents | src/libds1302/libds1302.c:274-322 | the calls of one field read: a read command at the field's read address and the register byte it reads |
| Driver.ReadDateEvents | src/libds1302/libds1302.c:435-442 | the calls of the read-back phase: the six field reads in writing order, up to and including the first that fails its decode or range check |

## Left out

- Lines are modelled by role (clock, data, chip-enable), not by GPIO number. The pins of the device handle are only checked, by `Setup` and `CheckDevice`. A handle that gives two roles the same pin number is not modelled as sharing a wire.
- `printf` diagnostics are not modelled. `exit(1)` is the `Err` result, after which nothing else happens. The mismatch message of ds1302_write_and_check leaves no trace beyond the read-back itself.
- `delayMicroseconds` appears only as a `Delay` event at its place in the trace. Physical timing is not modelled.
- The chip's own timekeeping, its trickle charger, its RAM, and any write-protect enforcement inside it are not modelled. The chip is a register store whose registers keep the bits of their mask.
- `ds1302_write_date` subtracts six reads in one expression, and C leaves the order of those calls unspecified. The model reads left to right, as written.
- `ds1302_decode_value` and `ds1302_encode_value` are declared in `src/libds1302/libds1302.h:145-155` but defined nowhere in the library, so they are not part of this model.
- The command-line program `src/ds1302.c` (argument parsing, environment variables, `sscanf`, output) and the header's `DS1302_*` convenience macros are not part of this model.
- The wiringPi library itself is not modelled beyond the effect of each call on the lines it names.

## Findings

| source | as written | input that shows it | evidently intended | confidence | as-written member | corrected member |
|---|---|---|---|---|---|---|
| src/libds1302/libds1302.c:406-411 | `ds1302_write_clock_halt` clears bit 7 of the seconds register and or-s `ch & 1` into bit 0, so the halt flag always ends clear and the seconds can change | a halted chip at 0 seconds (register 0x80) and ch = 1: the stored byte is 0x01, so the clock runs and reads 1 second | `ch & 1` shifted into bit 7, leaving the seconds bits alone, as the function's name, the read accessor at :324-327 and the write-protect accessor at :413-416 suggest | not executed | Registers.ClockHaltCounterexample, Driver.Bus.WriteClockHalt | Registers.IntendedClockHalt, Driver.Bus.WriteClockHaltIntended |
