/**
 * The driver itself: the host's three GPIO lines and the chip on the far
 * end, updated call by call as the C functions update them through the GPIO
 * library. Every call into that library appends an event to `trace`; the
 * chip reacts to the clock and chip-enable edges as the Chip module says.
 *
 * Each method is proved against the pure layer: a bit or byte against the
 * chip's bit-level protocol, a command against the register it reads or
 * stores, an accessor against the codec and range check, the date
 * transaction against its plan in Registers.
 */
module Driver {
  import opened Codec
  import opened Wire
  import opened Chip
  import opened Registers

  /** The events of ds1302_write_and_check: the write command, then the read command and what it read. */
  function CheckedWriteEvents(command: bv8, value: bv8, readback: bv8): seq<Event> {
    WriteCommandEvents(command, value) + ReadCommandEvents(command | 0x01, readback)
  }

  /**
   * The events of store k (k < 7) of ds1302_write_date on chip c: the checked
   * write that clears write-protect, then one checked write per field in BCD,
   * year first; the seconds (k = 6) are preceded by the read of the seconds
   * register whose halt bit they keep.
   */
  function DateStoreEvents(c: Chip, d: Date, k: nat): seq<Event>
    requires c.Valid() && k < 7
  {
    if k == 0 then
      CheckedWriteEvents(WriteProtectWrite, WriteProtectByte(0), WriteProtectByte(0) & c.mask[Index(WriteProtectWrite)])
    else if k < 6 then
      var f, v := DateFields()[k - 1], Values(d)[k - 1];
      CheckedWriteEvents(WriteAddress(f), Encode(v), Encode(v) & c.mask[Index(WriteAddress(f))])
    else
      var raw := c.regs[Index(ReadAddress(Seconds))];
      var v := SecondsByte(raw, d.seconds);
      ReadCommandEvents(0x81, raw) + CheckedWriteEvents(0x80, v, v & c.mask[Index(WriteAddress(Seconds))])
  }

  /**
   * The events of each store before the seconds are the checked write of
   * the matching store of the plan (Registers.DatePlan).
   */
  lemma DateStorePlan(c: Chip, d: Date, k: nat)
    requires c.Valid() && k < 6
    ensures var w := DatePlan(c.regs[Index(ReadAddress(Seconds))], d)[k];
            DateStoreEvents(c, d, k) == CheckedWriteEvents(w.command, w.value, w.value & c.mask[Index(w.command)])
  {
    if k > 0 {
      DateFieldWrite(c.regs[Index(ReadAddress(Seconds))], d, k);
    }
  }

  /**
   * The seconds store's events are the read of the seconds register, then
   * the checked write of the plan's last store.
   */
  lemma SecondsStorePlan(c: Chip, d: Date)
    requires c.Valid()
    ensures var raw := c.regs[Index(ReadAddress(Seconds))];
            var w := DatePlan(raw, d)[6];
            DateStoreEvents(c, d, 6) == ReadCommandEvents(0x81, raw) + CheckedWriteEvents(w.command, w.value, w.value & c.mask[Index(w.command)])
  {
  }

  /**
   * t followed by the events of stores k, k + 1, ... (1 <= k <= 7) of
   * ds1302_write_date on chip c, up to the first field out of range: the
   * trace the write phase ends with once it reaches store k with trace t.
   */
  function DateStoreTrace(t: seq<Event>, c: Chip, d: Date, k: nat): seq<Event>
    requires c.Valid() && 1 <= k <= 7
    decreases 7 - k
  {
    if k == 7 || !InRange(DateFields()[k - 1], Values(d)[k - 1]) then t
    else DateStoreTrace(t + DateStoreEvents(c, d, k), c, d, k + 1)
  }

  /** t followed by the events of the write phase of ds1302_write_date on chip c: store 0, then the fields in range. */
  function DateWriteTrace(t: seq<Event>, c: Chip, d: Date): seq<Event>
    requires c.Valid()
  {
    DateStoreTrace(t + DateStoreEvents(c, d, 0), c, d, 1)
  }

  /** The events of the first n stores of ds1302_write_date, in order. */
  function DateWriteEvents(c: Chip, d: Date, n: nat): seq<Event>
    requires c.Valid() && n <= 7
  {
    if n == 0 then [] else DateWriteEvents(c, d, n - 1) + DateStoreEvents(c, d, n - 1)
  }

  /**
   * The rest of the write phase only appends to the trace it starts from, so
   * two traces it takes to the same trace were the same.
   */
  lemma {:induction false} DateStoreTraceCancel(t1: seq<Event>, t2: seq<Event>, c: Chip, d: Date, k: nat)
    requires c.Valid() && 1 <= k <= 7 && DateStoreTrace(t1, c, d, k) == DateStoreTrace(t2, c, d, k)
    decreases 7 - k
    ensures t1 == t2
  {
    if k < 7 && InRange(DateFields()[k - 1], Values(d)[k - 1]) {
      var e := DateStoreEvents(c, d, k);
      DateStoreTraceCancel(t1 + e, t2 + e, c, d, k + 1);
      assert |t1| == |t2|;
      assert t1 == (t1 + e)[..|t1|];
      assert t2 == (t2 + e)[..|t2|];
    }
  }

  /**
   * Reached with the first k stores made (k <= ValidPrefix(d) + 1), the write
   * phase goes on exactly up to store ValidPrefix(d): it makes the first
   * ValidPrefix(d) + 1 stores of the plan and no other.
   */
  lemma {:induction false} DateStoreTraceStores(t: seq<Event>, c: Chip, d: Date, k: nat)
    requires c.Valid() && 1 <= k <= ValidPrefix(d) + 1
    decreases 7 - k
    ensures DateStoreTrace(t + DateWriteEvents(c, d, k), c, d, k) == t + DateWriteEvents(c, d, ValidPrefix(d) + 1)
  {
    if k <= ValidPrefix(d) {
      PrefixAt(d, k - 1);
      TraceGroup(t, DateWriteEvents(c, d, k), DateStoreEvents(c, d, k), [], [], [], []);
      DateStoreTraceStores(t, c, d, k + 1);
    } else if k < 7 {
      PrefixAt(d, k - 1);
    }
  }

  /** The write phase of ds1302_write_date appends the events of the first ValidPrefix(d) + 1 stores of the plan. */
  lemma DateWriteTraceStores(t: seq<Event>, c: Chip, d: Date)
    requires c.Valid()
    ensures DateWriteTrace(t, c, d) == t + DateWriteEvents(c, d, ValidPrefix(d) + 1)
  {
    assert DateWriteEvents(c, d, 1) == [] + DateStoreEvents(c, d, 0);
    assert [] + DateStoreEvents(c, d, 0) == DateStoreEvents(c, d, 0);
    DateStoreTraceStores(t, c, d, 1);
  }

  /** Store k (1 <= k <= 5) of the write phase: the field's checked write when it is in range, else the end of the phase. */
  lemma FieldStoreTrace(t: seq<Event>, c: Chip, d: Date, k: nat, f: Field, v: bv8)
    requires c.Valid() && 1 <= k <= 5 && f == DateFields()[k - 1] && v == Values(d)[k - 1]
    ensures InRange(f, v) ==>
              DateStoreTrace(t, c, d, k)
              == DateStoreTrace(t + CheckedWriteEvents(WriteAddress(f), Encode(v), Encode(v) & c.mask[Index(WriteAddress(f))]), c, d, k + 1)
    ensures !InRange(f, v) ==> DateStoreTrace(t, c, d, k) == t
  {
  }

  /**
   * A trace that the rest of the write phase, from store k + 1, takes where it
   * takes t from store k, with field k in range, is t followed by exactly
   * that field's checked write.
   */
  lemma FieldStoreExact(t: seq<Event>, t': seq<Event>, c: Chip, d: Date, k: nat, f: Field, v: bv8)
    requires c.Valid() && 1 <= k <= 5 && f == DateFields()[k - 1] && v == Values(d)[k - 1] && InRange(f, v)
    requires DateStoreTrace(t', c, d, k + 1) == DateStoreTrace(t, c, d, k)
    ensures t' == t + CheckedWriteEvents(WriteAddress(f), Encode(v), Encode(v) & c.mask[Index(WriteAddress(f))])
  {
    FieldStoreTrace(t, c, d, k, f, v);
    DateStoreTraceCancel(t', t + CheckedWriteEvents(WriteAddress(f), Encode(v), Encode(v) & c.mask[Index(WriteAddress(f))]), c, d, k + 1);
  }

  /** Store 6 of the write phase: the read of the halt bit and the seconds' checked write when they are in range, else nothing. */
  lemma SecondsStoreTrace(t: seq<Event>, c: Chip, d: Date)
    requires c.Valid()
    ensures var raw := c.regs[Index(ReadAddress(Seconds))];
            var v := SecondsByte(raw, d.seconds);
            InRange(Seconds, d.seconds) ==>
              DateStoreTrace(t, c, d, 6)
              == t + ReadCommandEvents(0x81, raw) + CheckedWriteEvents(0x80, v, v & c.mask[Index(WriteAddress(Seconds))])
    ensures !InRange(Seconds, d.seconds) ==> DateStoreTrace(t, c, d, 6) == t
  {
    var raw := c.regs[Index(ReadAddress(Seconds))];
    var v := SecondsByte(raw, d.seconds);
    TraceGroup(t, ReadCommandEvents(0x81, raw), CheckedWriteEvents(0x80, v, v & c.mask[Index(WriteAddress(Seconds))]), [], [], [], []);
  }

  /** The events of one field read: the read command at the field's address. */
  function FieldReadEvents(regs: seq<bv8>, f: Field): seq<Event>
    requires |regs| == 128
  {
    ReadCommandEvents(ReadAddress(f), regs[Index(ReadAddress(f))])
  }

  /** Whether a field read fails its decode or range check. */
  predicate FieldFails(regs: seq<bv8>, f: Field)
    requires |regs| == 128
  {
    FieldValue(f, regs[Index(ReadAddress(f))]).Err?
  }

  /** The events of the read-back phase of ds1302_write_date: the six reads, in writing order, up to the first that fails. */
  function ReadDateEvents(regs: seq<bv8>): seq<Event>
    requires |regs| == 128
  {
    var year, month, mday := FieldReadEvents(regs, Year), FieldReadEvents(regs, Month), FieldReadEvents(regs, MDay);
    var hours, minutes := FieldReadEvents(regs, Hours), FieldReadEvents(regs, Minutes);
    if FieldFails(regs, Year) then year
    else if FieldFails(regs, Month) then year + month
    else if FieldFails(regs, MDay) then year + month + mday
    else if FieldFails(regs, Hours) then year + month + mday + hours
    else if FieldFails(regs, Minutes) then year + month + mday + hours + minutes
    else year + month + mday + hours + minutes + FieldReadEvents(regs, Seconds)
  }

  /** Appending pieces one by one to a trace is appending, at once, the pieces joined left to right. */
  lemma TraceGroup(t: seq<Event>, a: seq<Event>, b: seq<Event>, c: seq<Event>, d: seq<Event>, e: seq<Event>, f: seq<Event>)
    ensures t + a + b == t + (a + b)
    ensures t + a + b + c == t + (a + b + c)
    ensures t + a + b + c + d == t + (a + b + c + d)
    ensures t + a + b + c + d + e == t + (a + b + c + d + e)
    ensures t + a + b + c + d + e + f == t + (a + b + c + d + e + f)
  {
  }

  class Bus {
    /** The levels the host drives on the three lines, and the direction of the data line. */
    var ce: bool
    var clk: bool
    var dat: bool
    var datMode: PinMode
    /** The chip at the far end of the lines. */
    var chip: Chip
    /** Every GPIO call so far, in order. */
    var trace: seq<Event>

    /** The chip is well formed, and it has no transfer in progress while chip-enable is low. */
    predicate Valid()
      reads this
    {
      chip.Valid() && (!ce ==> chip.Idle())
    }

    /** Between transactions: chip-enable and clock low. */
    predicate Ready()
      reads this
    {
      Valid() && !ce && !clk
    }

    /**
     * The hardware as found: any line levels and data direction; a well-formed
     * chip, which has no transfer in progress while chip-enable is low; an
     * empty trace.
     */
    constructor (ce0: bool, clk0: bool, dat0: bool, datMode0: PinMode, chip0: Chip)
      requires chip0.Valid() && (!ce0 ==> chip0.Idle())
      ensures Valid()
      ensures ce == ce0 && clk == clk0 && dat == dat0 && datMode == datMode0 && chip == chip0 && trace == []
    {
      ce, clk, dat, datMode, chip, trace := ce0, clk0, dat0, datMode0, chip0, [];
    }

    // GPIO primitives ---------------------------------------------------------

    /** wiringPiSetupGpio. */
    method InitGpio()
      requires Valid()
      modifies this
      ensures Valid()
      ensures ce == old(ce) && clk == old(clk) && dat == old(dat) && datMode == old(datMode) && chip == old(chip)
      ensures trace == old(trace) + [Wire.InitGpio]
    {
      trace := trace + [Wire.InitGpio];
    }

    /** pinMode: only the data line's direction matters to the bus; the other two are always outputs. */
    method SetMode(line: Line, mode: PinMode)
      requires Valid()
      modifies this
      ensures Valid()
      ensures ce == old(ce) && clk == old(clk) && dat == old(dat) && chip == old(chip)
      ensures datMode == if line == Dat then mode else old(datMode)
      ensures trace == old(trace) + [Wire.SetMode(line, mode)]
    {
      if line == Dat {
        datMode := mode;
      }
      trace := trace + [Wire.SetMode(line, mode)];
    }

    /** digitalWrite on the chip-enable line: either edge abandons the chip's transfer. */
    method DriveCe(level: bool)
      requires Valid()
      modifies this
      ensures Valid()
      ensures ce == level && clk == old(clk) && dat == old(dat) && datMode == old(datMode)
      ensures chip == if level != old(ce) then old(chip).Reset() else old(chip)
      ensures trace == old(trace) + [Drive(Ce, level)]
    {
      if level != ce {
        chip := chip.Reset();
      }
      ce := level;
      trace := trace + [Drive(Ce, level)];
    }

    /** digitalWrite on the clock line: with chip-enable high, the chip sees the edge. */
    method DriveClk(level: bool)
      requires Valid()
      modifies this
      ensures Valid()
      ensures clk == level && ce == old(ce) && dat == old(dat) && datMode == old(datMode)
      ensures chip == if old(ce) && level && !old(clk) then old(chip).Rise(old(dat))
                      else if old(ce) && !level && old(clk) then old(chip).Fall()
                      else old(chip)
      ensures trace == old(trace) + [Drive(Clk, level)]
    {
      if ce && level && !clk {
        chip := chip.Rise(dat);
      } else if ce && !level && clk {
        chip := chip.Fall();
      }
      clk := level;
      trace := trace + [Drive(Clk, level)];
    }

    /** digitalWrite on the data line. */
    method DriveDat(level: bool)
      requires Valid()
      modifies this
      ensures Valid()
      ensures dat == level && ce == old(ce) && clk == old(clk) && datMode == old(datMode) && chip == old(chip)
      ensures trace == old(trace) + [Drive(Dat, level)]
    {
      dat := level;
      trace := trace + [Drive(Dat, level)];
    }

    /** digitalRead on the data line: the chip's bit while it drives the line, else the level last written. */
    method ReadDat() returns (level: bool)
      requires Valid()
      modifies this
      ensures Valid()
      ensures level == LineLevel(chip, dat)
      ensures ce == old(ce) && clk == old(clk) && dat == old(dat) && datMode == old(datMode) && chip == old(chip)
      ensures trace == old(trace) + [Sample(Dat, level)]
    {
      level := LineLevel(chip, dat);
      trace := trace + [Sample(Dat, level)];
    }

    /** delayMicroseconds: only its place in the trace is modelled. */
    method Delay(us: nat)
      requires Valid()
      modifies this
      ensures Valid()
      ensures ce == old(ce) && clk == old(clk) && dat == old(dat) && datMode == old(datMode) && chip == old(chip)
      ensures trace == old(trace) + [Wire.Delay(us)]
    {
      trace := trace + [Wire.Delay(us)];
    }

    // Setup -------------------------------------------------------------------

    /**
     * ds1302_setup: the device's pins are checked first, and a pin out of
     * range stops everything before any GPIO call (the C code prints and
     * exits; here that is the Err result, with the bus untouched). Otherwise
     * the GPIO library is initialised, the three lines become outputs and a
     * stop transfer leaves the bus ready, abandoning whatever transfer the
     * chip had in progress.
     */
    method Setup(clkPin: bv8, datPin: bv8, cePin: bv8) returns (r: Result<Device>)
      requires Valid()
      modifies this
      ensures r == CheckDevice(Device(clkPin, datPin, cePin))
      ensures r.Err? ==> ce == old(ce) && clk == old(clk) && dat == old(dat) && datMode == old(datMode)
                         && chip == old(chip) && trace == old(trace)
      ensures r.Ok? ==>
                && Ready() && !dat && datMode == Output
                && chip == (if old(ce) then old(chip).Reset() else old(chip))
                && trace == old(trace) + [Wire.InitGpio, Wire.SetMode(Clk, Output), Wire.SetMode(Dat, Output), Wire.SetMode(Ce, Output)]
                            + StopEvents()
    {
      var device := Device(clkPin, datPin, cePin);
      r := CheckDevice(device);
      if r.Err? {
        return;
      }
      InitGpio();
      SetMode(Clk, Output);
      SetMode(Dat, Output);
      SetMode(Ce, Output);
      StopTransfer();
    }

    // Mode change -------------------------------------------------------------

    /** ds1302_start_transfer: chip-enable high, then 5 us. From a ready bus the chip starts afresh. */
    method StartTransfer()
      requires Ready()
      modifies this
      ensures Valid() && ce && !clk && dat == old(dat) && datMode == old(datMode)
      ensures chip == old(chip) && chip.Idle()
      ensures trace == old(trace) + StartEvents()
    {
      DriveCe(true);
      Delay(5);
    }

    /** ds1302_stop_transfer: clock low, chip-enable low, data low; the chip abandons any transfer. */
    method StopTransfer()
      requires Valid()
      modifies this
      ensures Ready() && !dat && datMode == old(datMode)
      ensures chip == if old(ce) then old(chip).Reset() else old(chip)
      ensures trace == old(trace) + StopEvents()
    {
      DriveClk(false);
      DriveCe(false);
      DriveDat(false);
    }

    /** ds1302_start_read: the data line becomes an input, then 1 us. */
    method StartRead()
      requires Valid()
      modifies this
      ensures Valid() && ce == old(ce) && clk == old(clk) && dat == old(dat) && chip == old(chip)
      ensures datMode == Input
      ensures trace == old(trace) + [Wire.SetMode(Dat, Input), Wire.Delay(1)]
    {
      SetMode(Dat, Input);
      Delay(1);
    }

    /** ds1302_start_write: the data line becomes an output. */
    method StartWrite()
      requires Valid()
      modifies this
      ensures Valid() && ce == old(ce) && clk == old(clk) && dat == old(dat) && chip == old(chip)
      ensures datMode == Output
      ensures trace == old(trace) + [Wire.SetMode(Dat, Output)]
    {
      SetMode(Dat, Output);
    }

    // Low level ---------------------------------------------------------------

    /**
     * ds1302_write_bit: the level (any non-zero bit is high), one clock
     * pulse, and the data line back low while the clock is high. Inside a
     * transfer the chip latches the level at the rising edge.
     */
    method WriteBit(bit: bv8) returns (r: bv8)
      requires Valid() && ce && !clk
      modifies this
      ensures r == bit
      ensures Valid() && ce && !clk && !dat && datMode == old(datMode)
      ensures chip == old(chip).Rise(bit != 0).Fall()
      ensures trace == old(trace) + WriteBitEvents(bit != 0)
    {
      if bit != 0 {
        DriveDat(true);
      } else {
        DriveDat(false);
      }
      Delay(1);
      DriveClk(true);
      Delay(2);
      DriveDat(false);
      Delay(1);
      DriveClk(false);
      r := bit;
    }

    /** ds1302_read_bit: sample the data line, then one clock pulse; the result is 0 or 1. */
    method ReadBit() returns (bit: bv8)
      requires Valid() && ce && !clk
      modifies this
      ensures bit == if LineLevel(old(chip), old(dat)) then 1 else 0
      ensures Valid() && ce && !clk && dat == old(dat) && datMode == old(datMode)
      ensures chip == old(chip).Rise(old(dat)).Fall()
      ensures trace == old(trace) + ReadBitEvents(LineLevel(old(chip), old(dat)))
    {
      var level := ReadDat();
      bit := if level then 1 else 0;
      Delay(1);
      DriveClk(true);
      Delay(1);
      DriveClk(false);
      Delay(1);
    }

    /** ds1302_write_byte: the eight bits of the byte, least-significant first. */
    method WriteByte(byte: bv8) returns (r: bv8)
      requires Valid() && ce && !clk
      modifies this
      ensures r == byte
      ensures Valid() && ce && !clk && !dat && datMode == old(datMode)
      ensures chip == SendBits(old(chip), Bits(byte))
      ensures trace == old(trace) + SendEvents(Bits(byte))
    {
      var bits := Bits(byte);
      var i: nat := 0;
      while i < 8
        invariant i <= 8
        invariant Valid() && ce && !clk && datMode == old(datMode)
        invariant i > 0 ==> !dat
        invariant chip == SendBits(old(chip), bits[..i])
        invariant trace == old(trace) + SendEvents(bits[..i])
      {
        SendBitsStep(old(chip), bits, i);
        SendEventsStep(old(trace), bits, i);
        var _ := WriteBit(BitValue(byte, i));
        i := i + 1;
      }
      assert bits[..8] == bits;
      r := byte;
    }

    /** ds1302_read_byte: eight calls of ds1302_read_bit, the k-th result or-ed into bit k. */
    method ReadByte() returns (byte: bv8)
      requires Valid() && ce && !clk
      modifies this
      ensures byte == FromBits(Readout(old(chip), old(dat), 8))
      ensures Valid() && ce && !clk && dat == old(dat) && datMode == old(datMode)
      ensures chip == Clocks(old(chip), old(dat), 8)
      ensures trace == old(trace) + ReceiveEvents(Readout(old(chip), old(dat), 8))
    {
      byte := 0;
      var i: nat := 0;
      while i < 8
        invariant i <= 8
        invariant Valid() && ce && !clk && dat == old(dat) && datMode == old(datMode)
        invariant chip == Clocks(old(chip), old(dat), i)
        invariant byte == FromBits(Readout(old(chip), old(dat), i))
        invariant trace == old(trace) + ReceiveEvents(Readout(old(chip), old(dat), i))
      {
        ghost var got := Readout(old(chip), old(dat), i);
        ghost var level := LineLevel(chip, dat);
        ReadoutNext(old(chip), old(dat), i);
        var b := ReadBit();
        ReadByteStep(byte, got, level, b, i);
        assert trace == old(trace) + ReceiveEvents(got) + ReadBitEvents(level);
        ReceiveEventsStep(old(trace), got, level);
        byte := byte | Place(b, i);
        i := i + 1;
      }
    }

    // Command functions -------------------------------------------------------

    /**
     * ds1302_read_command: one read transaction. It returns the register the
     * command selects, leaves the chip as it found it, and issues exactly the
     * events of a read command, whose observed bits are the command with bit 0
     * set and the value read (Wire.ReadCommandObserved).
     */
    method ReadCommand(command: bv8) returns (value: bv8)
      requires Ready()
      modifies this
      ensures value == old(chip).regs[Index(command | 0x01)]
      ensures Ready() && chip == old(chip) && !dat && datMode == Input
      ensures trace == old(trace) + ReadCommandEvents(command, value)
    {
      ghost var c := chip;
      ghost var t := trace;
      ReadTransaction(c, command, false);
      StartTransfer();
      StartWrite();
      var _ := WriteByte(command | 0x01);
      StartRead();
      ghost var sent := chip;
      value := ReadByte();
      ghost var got := Readout(sent, false, 8);
      assert got == Bits(c.regs[Index(command | 0x01)]);
      FromBitsOfBits(c.regs[Index(command | 0x01)]);
      StopTransfer();
      TraceGroup(t, StartEvents(), [Wire.SetMode(Dat, Output)], SendEvents(Bits(command | 0x01)),
                 [Wire.SetMode(Dat, Input), Wire.Delay(1)], ReceiveEvents(got), StopEvents());
    }

    /**
     * ds1302_write_command: one write transaction. The chip stores the value
     * at the register the command selects, and the events are exactly those
     * of a write command (Wire.WriteCommandObserved).
     */
    method WriteCommand(command: bv8, value: bv8) returns (r: bv8)
      requires Ready()
      modifies this
      ensures r == value
      ensures Ready() && chip == old(chip).Store(command & 0xFE, value) && !dat && datMode == Output
      ensures trace == old(trace) + WriteCommandEvents(command, value)
    {
      ghost var t := trace;
      WriteTransaction(chip, command, value);
      StartTransfer();
      StartWrite();
      var _ := WriteByte(command & 0xFE);
      var _ := WriteByte(value);
      StopTransfer();
      r := value;
      TraceGroup(t, StartEvents(), [Wire.SetMode(Dat, Output)], SendEvents(Bits(command & 0xFE)),
                 SendEvents(Bits(value)), StopEvents(), []);
    }

    /**
     * ds1302_write_and_check: a write command, then a read command on the
     * same register. The value returned is the one intended, whatever the
     * read found; the trace records the read-back, which is the bits the
     * register kept (the mismatch message is not modelled).
     */
    method WriteAndCheck(command: bv8, value: bv8) returns (r: bv8)
      requires Ready()
      modifies this
      ensures r == value
      ensures Ready() && chip == old(chip).Store(command & 0xFE, value) && !dat && datMode == Input
      ensures trace == old(trace) + CheckedWriteEvents(command, value, value & old(chip).mask[Index(command)])
    {
      ghost var t := trace;
      StoredReadBack(chip, command, value);
      var _ := WriteCommand(command, value);
      var check := ReadCommand(command | 0x01);
      r := value;
      TraceGroup(t, WriteCommandEvents(command, value), ReadCommandEvents(command | 0x01, check), [], [], [], []);
    }

    // Read commands -----------------------------------------------------------

    /**
     * ds1302_read_seconds, _minutes, _hours, _mday, _month, _weekday and
     * _year: a read command at the field's address, the BCD decode of the
     * field's width and its range check. The result is Ok exactly when the
     * decoded value lies in the field's range (Registers.FieldValue).
     */
    method ReadField(f: Field) returns (r: Result<bv8>)
      requires Ready()
      modifies this
      ensures r == FieldValue(f, old(chip).regs[Index(ReadAddress(f))])
      ensures Ready() && chip == old(chip) && !dat && datMode == Input
      ensures trace == old(trace) + ReadCommandEvents(ReadAddress(f), old(chip).regs[Index(ReadAddress(f))])
    {
      AddressMap(f, f);
      assert ReadAddress(f) | 0x01 == ReadAddress(f);
      var raw := ReadCommand(ReadAddress(f));
      var decoded := Decode(Tag(f), raw);
      match decoded {
        case Err(e) => r := Err(e);
        case Ok(bcd) => r := CheckRange(Min(f), Max(f), bcd);
      }
    }

    /** ds1302_read_clock_halt: bit 7 of the seconds register, as 0 or 1. */
    method ReadClockHalt() returns (r: bv8)
      requires Ready()
      modifies this
      ensures r == TopBit(old(chip).regs[Index(ReadAddress(Seconds))])
      ensures Ready() && chip == old(chip) && !dat && datMode == Input
      ensures trace == old(trace) + ReadCommandEvents(0x81, old(chip).regs[Index(ReadAddress(Seconds))])
    {
      var raw := ReadCommand(0x81);
      r := (0x80 & raw) >> 7;
    }

    /** ds1302_read_24h_mode: 1 when bit 7 of the hours register is clear. */
    method Read24hMode() returns (r: bv8)
      requires Ready()
      modifies this
      ensures r == Mode24(old(chip).regs[Index(ReadAddress(Hours))])
      ensures Ready() && chip == old(chip) && !dat && datMode == Input
      ensures trace == old(trace) + ReadCommandEvents(0x85, old(chip).regs[Index(ReadAddress(Hours))])
    {
      var raw := ReadCommand(0x85);
      if (0x80 & raw) >> 7 != 0 {
        r := 0;
      } else {
        r := 1;
      }
    }

    /** ds1302_read_pm: bit 5 of the hours register, as 0 or 1. */
    method ReadPm() returns (r: bv8)
      requires Ready()
      modifies this
      ensures r == PmFlag(old(chip).regs[Index(ReadAddress(Hours))])
      ensures Ready() && chip == old(chip) && !dat && datMode == Input
      ensures trace == old(trace) + ReadCommandEvents(0x85, old(chip).regs[Index(ReadAddress(Hours))])
    {
      var raw := ReadCommand(0x85);
      r := (0x20 & raw) >> 5;
    }

    /** ds1302_read_write_protect: bit 7 of the write-protect register, as 0 or 1. */
    method ReadWriteProtect() returns (r: bv8)
      requires Ready()
      modifies this
      ensures r == TopBit(old(chip).regs[Index(WriteProtectRead)])
      ensures Ready() && chip == old(chip) && !dat && datMode == Input
      ensures trace == old(trace) + ReadCommandEvents(WriteProtectRead, old(chip).regs[Index(WriteProtectRead)])
    {
      var raw := ReadCommand(WriteProtectRead);
      r := (0x80 & raw) >> 7;
    }

    // Write commands ----------------------------------------------------------

    /**
     * ds1302_write_seconds: the range check comes first, and a value out of
     * range touches nothing. Otherwise the seconds register is read, and the
     * clock-halt bit found there is written back together with the BCD
     * seconds. On a register that keeps every bit, the halt flag is as it
     * was and the seconds read back as written.
     */
    method WriteSeconds(seconds: bv8) returns (r: Result<bv8>)
      requires Ready()
      modifies this
      ensures Ready()
      ensures r.Ok? <==> seconds <= 59
      ensures r.Err? ==> r.error == RangeError(0, 59, seconds) && chip == old(chip) && trace == old(trace)
                         && dat == old(dat) && datMode == old(datMode)
      ensures r.Ok? ==> !dat && datMode == Input
      ensures r.Ok? ==>
                var raw := old(chip).regs[Index(ReadAddress(Seconds))];
                var v := SecondsByte(raw, seconds);
                && r.value == v
                && chip == old(chip).Store(WriteAddress(Seconds), v)
                && trace == old(trace) + ReadCommandEvents(0x81, raw)
                            + CheckedWriteEvents(0x80, v, v & old(chip).mask[Index(WriteAddress(Seconds))])
      ensures r.Ok? && old(chip).mask[Index(WriteAddress(Seconds))] == 0xFF ==>
                && TopBit(chip.regs[Index(ReadAddress(Seconds))]) == TopBit(old(chip).regs[Index(ReadAddress(Seconds))])
                && FieldValue(Seconds, chip.regs[Index(ReadAddress(Seconds))]) == Ok(seconds)
    {
      var checked := CheckRange(0, 59, seconds);
      if checked.Err? {
        r := Err(checked.error);
        return;
      }
      ghost var raw := chip.regs[Index(ReadAddress(Seconds))];
      var read := ReadCommand(0x81);
      var clockHalt := 0x80 & read;
      var v := WriteAndCheck(0x80, clockHalt | Encode(seconds));
      r := Ok(v);
      SecondsWriteKeepsHalt(raw, seconds);
    }

    /**
     * ds1302_write_minutes, _hours, _mday, _month, _weekday and _year: the
     * range check first, touching nothing when it fails; otherwise the BCD
     * value is written and checked. On a register that keeps every bit the
     * field reads back as written, and after an hours write the chip is in
     * 24-hour mode whatever its mask.
     */
    method WriteField(f: Field, v: bv8) returns (r: Result<bv8>)
      requires Ready() && f != Seconds
      modifies this
      ensures Ready()
      ensures r.Ok? <==> InRange(f, v)
      ensures r.Err? ==> r.error == RangeError(Min(f), Max(f), v) && chip == old(chip) && trace == old(trace)
                         && dat == old(dat) && datMode == old(datMode)
      ensures r.Ok? ==> !dat && datMode == Input
      ensures r.Ok? ==>
                && r.value == Encode(v)
                && chip == old(chip).Store(WriteAddress(f), Encode(v))
                && trace == old(trace)
                            + CheckedWriteEvents(WriteAddress(f), Encode(v), Encode(v) & old(chip).mask[Index(WriteAddress(f))])
      ensures r.Ok? && old(chip).mask[Index(WriteAddress(f))] == 0xFF ==>
                FieldValue(f, chip.regs[Index(ReadAddress(f))]) == Ok(v)
      ensures r.Ok? && f == Hours ==> Mode24(chip.regs[Index(ReadAddress(Hours))]) == 1
    {
      var checked := CheckRange(Min(f), Max(f), v);
      if checked.Err? {
        r := Err(checked.error);
        return;
      }
      FieldStore(chip, f, v);
      var written := WriteAndCheck(WriteAddress(f), Encode(v));
      r := Ok(written);
    }

    /**
     * ds1302_write_clock_halt, as written: the seconds register with bit 7
     * cleared and `ch & 1` or-ed into bit 0. Whatever ch is, the halt flag
     * ends up clear (Registers.ClockHaltByteBits, ClockHaltCounterexample).
     */
    method WriteClockHalt(ch: bv8) returns (r: bv8)
      requires Ready()
      modifies this
      ensures Ready() && !dat && datMode == Input
      ensures var raw := old(chip).regs[Index(ReadAddress(Seconds))];
              && r == ClockHaltByte(raw, ch)
              && chip == old(chip).Store(WriteAddress(Seconds), r)
              && trace == old(trace) + ReadCommandEvents(0x81, raw)
                          + CheckedWriteEvents(0x80, r, r & old(chip).mask[Index(WriteAddress(Seconds))])
      ensures TopBit(chip.regs[Index(ReadAddress(Seconds))]) == 0
    {
      ghost var raw := chip.regs[Index(ReadAddress(Seconds))];
      var read := ReadCommand(0x81);
      var seconds := read & 0x7F;
      r := WriteAndCheck(0x80, seconds | (ch & 0x01));
      ClockHaltByteBits(raw, ch);
    }

    /**
     * The clock-halt write as evidently intended: `ch & 1` into bit 7. On a
     * register that keeps every bit, the halt flag then reads back as ch's
     * low bit and the seconds are untouched.
     */
    method WriteClockHaltIntended(ch: bv8) returns (r: bv8)
      requires Ready()
      modifies this
      ensures Ready() && !dat && datMode == Input
      ensures var raw := old(chip).regs[Index(ReadAddress(Seconds))];
              && r == IntendedClockHaltByte(raw, ch)
              && chip == old(chip).Store(WriteAddress(Seconds), r)
              && trace == old(trace) + ReadCommandEvents(0x81, raw)
                          + CheckedWriteEvents(0x80, r, r & old(chip).mask[Index(WriteAddress(Seconds))])
      ensures old(chip).mask[Index(WriteAddress(Seconds))] == 0xFF ==>
                && TopBit(chip.regs[Index(ReadAddress(Seconds))]) == ch & 0x01
                && FieldValue(Seconds, chip.regs[Index(ReadAddress(Seconds))])
                   == FieldValue(Seconds, old(chip).regs[Index(ReadAddress(Seconds))])
    {
      ghost var raw := chip.regs[Index(ReadAddress(Seconds))];
      var read := ReadCommand(0x81);
      var seconds := read & 0x7F;
      r := WriteAndCheck(0x80, seconds | ((ch & 0x01) << 7));
      IntendedClockHalt(raw, ch);
    }

    /**
     * ds1302_write_write_protect: `wp & 1` in bit 7 of the write-protect
     * register. On a register that keeps every bit, the flag reads back as
     * wp's low bit.
     */
    method WriteWriteProtect(wp: bv8) returns (r: bv8)
      requires Ready()
      modifies this
      ensures Ready() && !dat && datMode == Input
      ensures r == WriteProtectByte(wp)
      ensures chip == old(chip).Store(WriteProtectWrite, r)
      ensures trace == old(trace) + CheckedWriteEvents(WriteProtectWrite, r, r & old(chip).mask[Index(WriteProtectWrite)])
      ensures old(chip).mask[Index(WriteProtectWrite)] == 0xFF ==> TopBit(chip.regs[Index(WriteProtectRead)]) == wp & 0x01
    {
      r := WriteAndCheck(WriteProtectWrite, (wp & 0x01) << 7);
      WriteProtectRoundTrip(wp);
    }

    // The date transaction ----------------------------------------------------

    /**
     * Store 0 of the date transaction: write-protect off, the chip one store
     * along the plan and the trace one store's events longer.
     */
    method WriteDateUnprotect(ghost c: Chip, d: Date)
      requires Ready() && c.Valid() && chip == c
      modifies this
      ensures Ready() && !dat && datMode == Input
      ensures chip == DateChip(c, c.regs[Index(ReadAddress(Seconds))], d, 1)
      ensures trace == old(trace) + DateStoreEvents(c, d, 0)
    {
      DateChipNext(c, c.regs[Index(ReadAddress(Seconds))], d, 0);
      var _ := WriteWriteProtect(0);
    }

    /**
     * Store k (1 <= k <= 5) of the date transaction, reached with the fields
     * before it in range: the k-th field in writing order through its
     * accessor. It succeeds exactly when the range-checked prefix of the date
     * reaches past it, and then the chip moves one store along the plan and
     * the trace the write phase ends with stays the same, so the trace has
     * gained exactly the field's checked write (FieldStoreExact); at the
     * first field out of range nothing changes and that field's range error
     * is the result.
     */
    method WriteDateField(ghost c: Chip, d: Date, k: nat) returns (r: Result<bv8>)
      requires Ready() && c.Valid() && 1 <= k <= 5 && k <= ValidPrefix(d) + 1
      requires chip == DateChip(c, c.regs[Index(ReadAddress(Seconds))], d, k) && !dat && datMode == Input
      modifies this
      ensures Ready() && !dat && datMode == Input
      ensures r.Ok? <==> k <= ValidPrefix(d)
      ensures r.Ok? ==> chip == DateChip(c, c.regs[Index(ReadAddress(Seconds))], d, k + 1)
                        && DateStoreTrace(trace, c, d, k + 1) == DateStoreTrace(old(trace), c, d, k)
      ensures r.Err? ==> chip == old(chip) && trace == old(trace) && k == ValidPrefix(d) + 1
                         && chip == DateChip(c, c.regs[Index(ReadAddress(Seconds))], d, ValidPrefix(d) + 1)
                         && trace == DateStoreTrace(old(trace), c, d, k)
                         && r == Err(RangeError(Min(DateFields()[ValidPrefix(d)]), Max(DateFields()[ValidPrefix(d)]), Values(d)[ValidPrefix(d)]))
    {
      var f, v := DateFields()[k - 1], Values(d)[k - 1];
      ghost var raw := c.regs[Index(ReadAddress(Seconds))];
      DateChipNext(c, raw, d, k);
      DateFieldWrite(raw, d, k);
      PrefixAt(d, k - 1);
      FieldStoreTrace(trace, c, d, k, f, v);
      r := WriteField(f, v);
    }

    /**
     * Store 6 of the date transaction, reached with the five fields before it
     * in range: the seconds through ds1302_write_seconds, which keeps the
     * halt bit read at the start of the transaction (no earlier store touches
     * that register). The trace gains that read and the checked write, and
     * is then the trace the write phase ends with.
     */
    method WriteDateSeconds(ghost c: Chip, d: Date) returns (r: Result<bv8>)
      requires Ready() && c.Valid() && 5 <= ValidPrefix(d)
      requires chip == DateChip(c, c.regs[Index(ReadAddress(Seconds))], d, 6) && !dat && datMode == Input
      modifies this
      ensures Ready() && !dat && datMode == Input
      ensures r.Ok? <==> ValidPrefix(d) == 6
      ensures chip == DateChip(c, c.regs[Index(ReadAddress(Seconds))], d, ValidPrefix(d) + 1)
      ensures r.Ok? ==> r.value == SecondsByte(c.regs[Index(ReadAddress(Seconds))], d.seconds)
      ensures trace == DateStoreTrace(old(trace), c, d, 6)
      ensures r.Err? ==> chip == old(chip) && trace == old(trace) && r == Err(RangeError(0, 59, d.seconds))
    {
      ghost var raw := c.regs[Index(ReadAddress(Seconds))];
      DateChipNext(c, raw, d, 6);
      DateKeepsSeconds(c, raw, d, 6);
      PrefixAt(d, 5);
      SecondsStoreTrace(trace, c, d);
      r := WriteSeconds(d.seconds);
    }

    /**
     * Stores k to 6 of the write phase of ds1302_write_date (1 <= k <= 6):
     * the field stores from the k-th field on, in order, each through its
     * range-checked accessor. The first field out of range ends the
     * transaction with its error; the stores before it stay done. The trace
     * gains exactly the events of the stores made (Driver.DateStoreTrace).
     */
    method WriteDateStores(ghost c: Chip, d: Date, k: nat) returns (r: Result<bv8>)
      requires Ready() && c.Valid() && 1 <= k <= 6 && k <= ValidPrefix(d) + 1
      requires chip == DateChip(c, c.regs[Index(ReadAddress(Seconds))], d, k) && !dat && datMode == Input
      modifies this
      decreases 6 - k
      ensures Ready() && !dat && datMode == Input
      ensures chip == DateChip(c, c.regs[Index(ReadAddress(Seconds))], d, ValidPrefix(d) + 1)
      ensures trace == DateStoreTrace(old(trace), c, d, k)
      ensures r.Ok? <==> ValidPrefix(d) == 6
      ensures r.Err? ==> r == Err(RangeError(Min(DateFields()[ValidPrefix(d)]), Max(DateFields()[ValidPrefix(d)]), Values(d)[ValidPrefix(d)]))
    {
      if k == 6 {
        r := WriteDateSeconds(c, d);
        return;
      }
      r := WriteDateField(c, d, k);
      if r.Err? {
        return;
      }
      r := WriteDateStores(c, d, k + 1);
    }

    /**
     * The write phase of ds1302_write_date: write-protect off, then year,
     * month, day of month, hours, minutes and seconds, each through its
     * range-checked accessor. The first value out of range is the error, and
     * the stores before it stay done; the trace gains exactly their events
     * (DateWriteTraceStores).
     */
    method WriteDateRegisters(d: Date) returns (r: Result<bv8>)
      requires Ready()
      modifies this
      ensures Ready() && !dat && datMode == Input
      ensures var n := ValidPrefix(d);
              && chip == DateChip(old(chip), old(chip).regs[Index(ReadAddress(Seconds))], d, n + 1)
              && trace == DateWriteTrace(old(trace), old(chip), d)
              && (r.Ok? <==> n == 6)
              && (n < 6 ==> r == Err(RangeError(Min(DateFields()[n]), Max(DateFields()[n]), Values(d)[n])))
    {
      ghost var c := chip;
      WriteDateUnprotect(c, d);
      r := WriteDateStores(c, d, 1);
    }

    /**
     * The read-back phase of ds1302_write_date: the six fields, left to
     * right; the first failing read is the error and the last read made.
     */
    method ReadDateRegisters() returns (r: Result<Date>)
      requires Ready()
      modifies this
      ensures Ready() && chip == old(chip) && !dat && datMode == Input
      ensures r == ReadDate(chip.regs)
      ensures trace == old(trace) + ReadDateEvents(chip.regs)
    {
      ghost var t := trace;
      ghost var regs := chip.regs;
      TraceGroup(t, FieldReadEvents(regs, Year), FieldReadEvents(regs, Month), FieldReadEvents(regs, MDay),
                 FieldReadEvents(regs, Hours), FieldReadEvents(regs, Minutes), FieldReadEvents(regs, Seconds));
      var year := ReadField(Year);
      if year.Err? {
        r := Err(year.error);
        assert ReadDate(chip.regs) == r;
        return;
      }
      var month := ReadField(Month);
      if month.Err? {
        r := Err(month.error);
        assert ReadDate(chip.regs) == r;
        return;
      }
      var mday := ReadField(MDay);
      if mday.Err? {
        r := Err(mday.error);
        assert ReadDate(chip.regs) == r;
        return;
      }
      var hours := ReadField(Hours);
      if hours.Err? {
        r := Err(hours.error);
        assert ReadDate(chip.regs) == r;
        return;
      }
      var minutes := ReadField(Minutes);
      if minutes.Err? {
        r := Err(minutes.error);
        assert ReadDate(chip.regs) == r;
        return;
      }
      var seconds := ReadField(Seconds);
      if seconds.Err? {
        r := Err(seconds.error);
        assert ReadDate(chip.regs) == r;
      } else {
        r := Ok(Date(year.value, month.value, mday.value, hours.value, minutes.value, seconds.value));
        assert ReadDate(chip.regs) == r;
      }
    }

    /**
     * ds1302_write_date: the write phase, then the read-back phase, and the
     * sum of written minus read, cut to eight bits (Registers.DateDiff). The
     * trace is the events of the stores made, then, when every field was in
     * range, those of the read-back.
     */
    method WriteDate(year: bv8, month: bv8, mday: bv8, hours: bv8, minutes: bv8, seconds: bv8)
      returns (r: Result<bv8>)
      requires Ready()
      modifies this
      ensures Ready() && !dat && datMode == Input
      ensures var d := Date(year, month, mday, hours, minutes, seconds);
              var n := ValidPrefix(d);
              && chip == DateChip(old(chip), old(chip).regs[Index(ReadAddress(Seconds))], d, n + 1)
              && (n < 6 ==> r == Err(RangeError(Min(DateFields()[n]), Max(DateFields()[n]), Values(d)[n])))
              && (n == 6 ==> r == DateOutcome(chip.regs, d))
      ensures var d := Date(year, month, mday, hours, minutes, seconds);
              var written := DateWriteTrace(old(trace), old(chip), d);
              trace == if ValidPrefix(d) == 6 then written + ReadDateEvents(chip.regs) else written
    {
      var d := Date(year, month, mday, hours, minutes, seconds);
      r := WriteDateRegisters(d);
      if r.Err? {
        return;
      }
      var read := ReadDateRegisters();
      if read.Err? {
        r := Err(read.error);
      } else {
        r := Ok(DateDiff(d, read.value));
      }
    }
  }
}
