/**
 * The register accessors' arithmetic, without the bus: which address,
 * decode width and range each time field uses, what each read makes of the
 * raw register byte, what each write puts in it, and the plan of the date
 * transaction (which stores, in which order, and what it then reports).
 */
module Registers {
  import opened Codec
  import opened Chip

  /** The seven time and date fields, each with its own register. */
  datatype Field = Seconds | Minutes | Hours | MDay | Month | Weekday | Year

  /** The write command of a field's register (bit 0 clear). */
  function WriteAddress(f: Field): bv8 {
    match f
    case Seconds => 0x80
    case Minutes => 0x82
    case Hours => 0x84
    case MDay => 0x86
    case Month => 0x88
    case Weekday => 0x8A
    case Year => 0x8C
  }

  /** The read command of a field's register (bit 0 set), as each ds1302_read_* accessor spells it. */
  function ReadAddress(f: Field): bv8 {
    match f
    case Seconds => 0x81
    case Minutes => 0x83
    case Hours => 0x85
    case MDay => 0x87
    case Month => 0x89
    case Weekday => 0x8B
    case Year => 0x8D
  }

  /** The decode width tag of each field. */
  function Tag(f: Field): bv8 {
    match f
    case Seconds => 7
    case Minutes => 7
    case Hours => 6
    case MDay => 6
    case Month => 5
    case Weekday => 3
    case Year => 8
  }

  /** The smallest value each field's range check accepts. */
  function Min(f: Field): bv8 {
    match f
    case MDay => 1
    case Month => 1
    case Weekday => 1
    case _ => 0
  }

  /** The largest value each field's range check accepts. */
  function Max(f: Field): bv8 {
    match f
    case Seconds => 59
    case Minutes => 59
    case Hours => 24
    case MDay => 31
    case Month => 12
    case Weekday => 7
    case Year => 99
  }

  /** The commands of the write-protect register. */
  const WriteProtectWrite: bv8 := 0x8E
  const WriteProtectRead: bv8 := 0x8F

  /**
   * The address map: the read command of a field is its write command with
   * bit 0 set, both select the same register, and no two fields (nor the
   * write-protect register) share one.
   */
  lemma AddressMap(f: Field, g: Field)
    ensures ReadAddress(f) == WriteAddress(f) | 0x01 && WriteAddress(f) & 0x01 == 0
    ensures Index(ReadAddress(f)) == Index(WriteAddress(f))
    ensures f != g ==> Index(WriteAddress(f)) != Index(WriteAddress(g))
    ensures Index(WriteAddress(f)) != Index(WriteProtectWrite)
    ensures Index(WriteProtectRead) == Index(WriteProtectWrite)
  {
  }

  /** The field accessor's range check accepts v: Min(f) <= v <= Max(f), by CheckRange's contract. */
  predicate InRange(f: Field, v: bv8) {
    CheckRange(Min(f), Max(f), v).Ok?
  }

  /**
   * What a ds1302_read_* accessor makes of the raw register byte: the BCD
   * value of the bits its width tag keeps, if that lies in the field's
   * range, and the range error otherwise. The width tags of the table are
   * all valid, so the decode step itself never fails.
   */
  function FieldValue(f: Field, raw: bv8): (r: Result<bv8>)
    ensures r.Ok? <==> InRange(f, BcdValue(raw & TagMask(Tag(f))))
    ensures r.Ok? ==> r.value == BcdValue(raw & TagMask(Tag(f)))
    ensures r.Err? ==> r.error == RangeError(Min(f), Max(f), BcdValue(raw & TagMask(Tag(f))))
  {
    DecodeValue(Tag(f), raw);
    match Decode(Tag(f), raw)
    case Err(e) => Err(e)
    case Ok(d) => CheckRange(Min(f), Max(f), d)
  }

  /** Every in-range value of a field, written as BCD, reads back as itself. */
  lemma FieldRoundTrip(f: Field, v: bv8)
    requires InRange(f, v)
    ensures FieldValue(f, Encode(v)) == Ok(v)
  {
    DecodeEncode(Tag(f), v);
  }

  /** The seconds read ignores the clock-halt flag in bit 7. */
  lemma SecondsIgnoreHalt(raw: bv8)
    ensures FieldValue(Seconds, raw | 0x80) == FieldValue(Seconds, raw & 0x7F)
  {
    DecodeSecondsIgnoresHalt(raw);
    DecodeSecondsIgnoresHalt(raw & 0x7F);
    assert (raw & 0x7F) | 0x80 == raw | 0x80;
  }

  /** Bit 7 of a register as 0 or 1: the clock-halt flag (seconds) and the write-protect flag. */
  function TopBit(raw: bv8): bv8 {
    (0x80 & raw) >> 7
  }

  /** ds1302_read_24h_mode: 1 when bit 7 of the hours register is clear, 0 when it is set. */
  function Mode24(raw: bv8): bv8 {
    if (0x80 & raw) >> 7 != 0 then 0 else 1
  }

  /** ds1302_read_pm: bit 5 of the hours register, as 0 or 1. */
  function PmFlag(raw: bv8): bv8 {
    (0x20 & raw) >> 5
  }

  /** The three single-bit reads answer 0 or 1 and agree with the bit they name. */
  lemma FlagsAreBits(raw: bv8)
    ensures TopBit(raw) <= 1 && (TopBit(raw) == 1 <==> raw >= 0x80)
    ensures Mode24(raw) == 1 - TopBit(raw)
    ensures PmFlag(raw) <= 1 && (PmFlag(raw) == 1 <==> raw & 0x20 != 0)
  {
  }

  /** ds1302_write_seconds: the clock-halt bit just read, or-ed into the encoded seconds. */
  function SecondsByte(raw: bv8, seconds: bv8): bv8 {
    (0x80 & raw) | Encode(seconds)
  }

  /** A seconds write keeps the halt flag as it was and reads back as the seconds written. */
  lemma SecondsWriteKeepsHalt(raw: bv8, seconds: bv8)
    requires seconds <= 59
    ensures TopBit(SecondsByte(raw, seconds)) == TopBit(raw)
    ensures FieldValue(Seconds, SecondsByte(raw, seconds)) == Ok(seconds)
  {
    FieldRoundTrip(Seconds, seconds);
    DecodeIgnoresUnmasked(7, Encode(seconds), 0x80 & raw);
    assert SecondsByte(raw, seconds) == Encode(seconds) | (0x80 & raw);
  }

  /**
   * An hours write stores plain BCD: bit 7 is clear, so the chip is in
   * 24-hour mode afterwards, and the value reads back. Bit 5, which
   * ds1302_read_pm reports, is then the twenties bit of the hour.
   */
  lemma HoursWriteIs24h(hours: bv8)
    requires hours <= 24
    ensures TopBit(Encode(hours)) == 0 && Mode24(Encode(hours)) == 1
    ensures PmFlag(Encode(hours)) == if hours >= 20 then 1 else 0
    ensures FieldValue(Hours, Encode(hours)) == Ok(hours)
  {
    FieldRoundTrip(Hours, hours);
  }

  /**
   * What a field write leaves in the field's register: on a register that
   * keeps every bit the field reads back as written, and after an hours
   * write bit 7 is clear (24-hour mode) whatever the mask keeps.
   */
  lemma FieldStore(c: Chip, f: Field, v: bv8)
    requires c.Valid() && InRange(f, v)
    ensures var regs := c.Store(WriteAddress(f), Encode(v)).regs;
            && (c.mask[Index(WriteAddress(f))] == 0xFF ==> FieldValue(f, regs[Index(ReadAddress(f))]) == Ok(v))
            && (f == Hours ==> Mode24(regs[Index(ReadAddress(Hours))]) == 1)
  {
    AddressMap(f, f);
    var j := Index(WriteAddress(f));
    StoreHits(c, WriteAddress(f), Encode(v), j);
    FieldRoundTrip(f, v);
    if f == Hours {
      HoursWriteIs24h(v);
    }
  }

  /** ds1302_write_clock_halt as written: bit 7 cleared, then `ch & 1` or-ed into bit 0. */
  function ClockHaltByte(raw: bv8, ch: bv8): bv8 {
    (raw & 0x7F) | (ch & 0x01)
  }

  /**
   * What the clock-halt write stores: bit 7 is always 0, so the clock runs
   * whatever ch is; bits 1..6 are kept; bit 0, the lowest bit of the ones
   * digit of the seconds, is set when ch is odd.
   */
  lemma ClockHaltByteBits(raw: bv8, ch: bv8)
    ensures TopBit(ClockHaltByte(raw, ch)) == 0
    ensures ClockHaltByte(raw, ch) & 0x7E == raw & 0x7E
    ensures ClockHaltByte(raw, ch) & 0x01 == (raw | ch) & 0x01
  {
  }

  /** A clock halted at 00 seconds, told to halt: it starts running, and at 01 seconds. */
  lemma ClockHaltCounterexample()
    ensures TopBit(0x80) == 1 && FieldValue(Seconds, 0x80) == Ok(0)
    ensures ClockHaltByte(0x80, 1) == 0x01
    ensures TopBit(ClockHaltByte(0x80, 1)) == 0 && FieldValue(Seconds, ClockHaltByte(0x80, 1)) == Ok(1)
  {
  }

  /** The evidently intended clock-halt byte: `ch & 1` in bit 7, the seconds untouched. */
  function IntendedClockHaltByte(raw: bv8, ch: bv8): bv8 {
    (raw & 0x7F) | ((ch & 0x01) << 7)
  }

  /** With the intended byte, the halt flag read back is ch's low bit and the seconds read is unchanged. */
  lemma IntendedClockHalt(raw: bv8, ch: bv8)
    ensures TopBit(IntendedClockHaltByte(raw, ch)) == ch & 0x01
    ensures IntendedClockHaltByte(raw, ch) & 0x7F == raw & 0x7F
    ensures FieldValue(Seconds, IntendedClockHaltByte(raw, ch)) == FieldValue(Seconds, raw)
  {
    DecodeIgnoresUnmasked(7, raw & 0x7F, (ch & 0x01) << 7);
    DecodeIgnoresUnmasked(7, raw & 0x7F, raw & 0x80);
    assert (raw & 0x7F) | (raw & 0x80) == raw;
  }

  /** ds1302_write_write_protect: `wp & 1` in bit 7, every other bit 0. */
  function WriteProtectByte(wp: bv8): bv8 {
    (wp & 0x01) << 7
  }

  lemma WriteProtectRoundTrip(wp: bv8)
    ensures TopBit(WriteProtectByte(wp)) == wp & 0x01
    ensures WriteProtectByte(wp) & 0x7F == 0
  {
  }

  /** The six arguments of ds1302_write_date. */
  datatype Date = Date(year: bv8, month: bv8, mday: bv8, hours: bv8, minutes: bv8, seconds: bv8)

  /** The order in which ds1302_write_date writes the fields. */
  function DateFields(): seq<Field> {
    [Year, Month, MDay, Hours, Minutes, Seconds]
  }

  function Values(d: Date): seq<bv8> {
    [d.year, d.month, d.mday, d.hours, d.minutes, d.seconds]
  }

  /** How many fields, in writing order, pass their range check before the first that fails. */
  function ValidPrefix(d: Date): (n: nat)
    ensures n <= 6
  {
    if !InRange(Year, d.year) then 0
    else if !InRange(Month, d.month) then 1
    else if !InRange(MDay, d.mday) then 2
    else if !InRange(Hours, d.hours) then 3
    else if !InRange(Minutes, d.minutes) then 4
    else if !InRange(Seconds, d.seconds) then 5
    else 6
  }

  /** With the first k fields in range, the prefix reaches past field k exactly when field k is in range too. */
  lemma PrefixAt(d: Date, k: nat)
    requires k < 6 && k <= ValidPrefix(d)
    ensures InRange(DateFields()[k], Values(d)[k]) <==> k < ValidPrefix(d)
  {
    var fields, values := DateFields(), Values(d);
    if k == 0 {
      assert fields[0] == Year && values[0] == d.year;
    } else if k == 1 {
      assert fields[1] == Month && values[1] == d.month;
    } else if k == 2 {
      assert fields[2] == MDay && values[2] == d.mday;
    } else if k == 3 {
      assert fields[3] == Hours && values[3] == d.hours;
    } else if k == 4 {
      assert fields[4] == Minutes && values[4] == d.minutes;
    } else {
      assert fields[5] == Seconds && values[5] == d.seconds;
    }
  }

  /** The fields before the prefix's end pass their range check, and the one at its end fails. */
  lemma ValidPrefixMeaning(d: Date)
    ensures forall i :: 0 <= i < ValidPrefix(d) ==> InRange(DateFields()[i], Values(d)[i])
    ensures ValidPrefix(d) < 6 ==> !InRange(DateFields()[ValidPrefix(d)], Values(d)[ValidPrefix(d)])
  {
    forall i | 0 <= i < ValidPrefix(d)
      ensures InRange(DateFields()[i], Values(d)[i])
    {
      PrefixAt(d, i);
    }
    if ValidPrefix(d) < 6 {
      PrefixAt(d, ValidPrefix(d));
    }
  }

  /**
   * The stores of ds1302_write_date, in order: write-protect off, then year,
   * month, day of month, hours, minutes and seconds. `secondsRaw` is the
   * seconds register before the transaction (the seconds write keeps its
   * halt bit).
   */
  function DatePlan(secondsRaw: bv8, d: Date): (plan: seq<Stored>)
    ensures |plan| == 7
  {
    [ Stored(WriteProtectWrite, WriteProtectByte(0)),
      Stored(WriteAddress(Year), Encode(d.year)),
      Stored(WriteAddress(Month), Encode(d.month)),
      Stored(WriteAddress(MDay), Encode(d.mday)),
      Stored(WriteAddress(Hours), Encode(d.hours)),
      Stored(WriteAddress(Minutes), Encode(d.minutes)),
      Stored(WriteAddress(Seconds), SecondsByte(secondsRaw, d.seconds)) ]
  }

  /** The chip after the first n stores of the date transaction. */
  function DateChip(c: Chip, secondsRaw: bv8, d: Date, n: nat): (r: Chip)
    requires c.Valid() && n <= 7
    decreases n
    ensures r.Valid() && r.mask == c.mask
  {
    if n == 0 then c
    else
      var w := DatePlan(secondsRaw, d)[n - 1];
      DateChip(c, secondsRaw, d, n - 1).Store(w.command, w.value)
  }

  /** One more store of the plan: the chip after k + 1 stores is the chip after k with the k-th store applied. */
  lemma DateChipNext(c: Chip, secondsRaw: bv8, d: Date, k: nat)
    requires c.Valid() && k < 7
    ensures var w := DatePlan(secondsRaw, d)[k];
            DateChip(c, secondsRaw, d, k + 1) == DateChip(c, secondsRaw, d, k).Store(w.command, w.value)
  {
  }

  /** The first n stores of the plan, as a store sequence. */
  lemma {:induction false} DateChipStores(c: Chip, secondsRaw: bv8, d: Date, n: nat)
    requires c.Valid() && n <= 7
    decreases n
    ensures DateChip(c, secondsRaw, d, n) == StoreAll(c, DatePlan(secondsRaw, d)[..n])
  {
    if n > 0 {
      DateChipStores(c, secondsRaw, d, n - 1);
      var plan := DatePlan(secondsRaw, d);
      assert plan[..n][..n - 1] == plan[..n - 1];
    }
  }

  /** Stores 1 to 5 of the plan write the k-th field of the date, encoded, at its write address. */
  lemma DateFieldWrite(secondsRaw: bv8, d: Date, k: nat)
    requires 1 <= k <= 5
    ensures DatePlan(secondsRaw, d)[k] == Stored(WriteAddress(DateFields()[k - 1]), Encode(Values(d)[k - 1]))
    ensures DateFields()[k - 1] != Seconds
  {
  }

  /** The stores before the seconds write leave the seconds register alone, so its halt bit is the one read at the start. */
  lemma DateKeepsSeconds(c: Chip, secondsRaw: bv8, d: Date, n: nat)
    requires c.Valid() && n <= 6
    ensures DateChip(c, secondsRaw, d, n).regs[Index(ReadAddress(Seconds))] == c.regs[Index(ReadAddress(Seconds))]
  {
    var stores := DatePlan(secondsRaw, d)[..n];
    forall i | 0 <= i < |stores|
      ensures Index(stores[i].command) != 64
    {
      DatePlanSlot(secondsRaw, d, i);
    }
    DateIndices();
    StoreAllMiss(c, stores, 64);
    DateChipStores(c, secondsRaw, d, n);
  }

  /**
   * Write-protect is the first register the date transaction writes, it is
   * cleared there, and no later store selects it again.
   */
  lemma DateWriteProtectFirstOnly(secondsRaw: bv8, d: Date)
    ensures DatePlan(secondsRaw, d)[0] == Stored(WriteProtectWrite, 0)
    ensures forall k :: 1 <= k < 7 ==> Index(DatePlan(secondsRaw, d)[k].command) != Index(WriteProtectWrite)
  {
  }

  /** The six reads of ds1302_write_date, left to right; the first failing read is the error. */
  function ReadDate(regs: seq<bv8>): Result<Date>
    requires |regs| == 128
  {
    var year := FieldValue(Year, regs[Index(ReadAddress(Year))]);
    if year.Err? then Err(year.error) else
    var month := FieldValue(Month, regs[Index(ReadAddress(Month))]);
    if month.Err? then Err(month.error) else
    var mday := FieldValue(MDay, regs[Index(ReadAddress(MDay))]);
    if mday.Err? then Err(mday.error) else
    var hours := FieldValue(Hours, regs[Index(ReadAddress(Hours))]);
    if hours.Err? then Err(hours.error) else
    var minutes := FieldValue(Minutes, regs[Index(ReadAddress(Minutes))]);
    if minutes.Err? then Err(minutes.error) else
    var seconds := FieldValue(Seconds, regs[Index(ReadAddress(Seconds))]);
    if seconds.Err? then Err(seconds.error) else
    Ok(Date(year.value, month.value, mday.value, hours.value, minutes.value, seconds.value))
  }

  /**
   * The value ds1302_write_date returns: the sum of written minus read, in
   * `int`, cut to eight bits by the `uint8_t` return type (the remainder of
   * Dafny's `%` is never negative, as the conversion to `uint8_t` requires).
   */
  function DateDiff(written: Date, read: Date): bv8 {
    var sum := 0
      + written.year as int - read.year as int
      + written.month as int - read.month as int
      + written.mday as int - read.mday as int
      + written.hours as int - read.hours as int
      + written.minutes as int - read.minutes as int
      + written.seconds as int - read.seconds as int;
    (sum % 256) as bv8
  }

  /** The outcome of the read-back phase of ds1302_write_date on the registers it left. */
  function DateOutcome(regs: seq<bv8>, written: Date): Result<bv8>
    requires |regs| == 128
  {
    match ReadDate(regs)
    case Err(e) => Err(e)
    case Ok(read) => Ok(DateDiff(written, read))
  }

  /** On a store that keeps every bit of the seven registers, an in-range date reads back exactly. */
  predicate IdealForDate(c: Chip)
    requires c.Valid()
  {
    c.mask[Index(WriteProtectWrite)] == 0xFF
    && forall f: Field :: c.mask[Index(WriteAddress(f))] == 0xFF
  }

  /** The register indices the date transaction touches, all distinct. */
  lemma DateIndices()
    ensures Index(WriteProtectWrite) == 71
    ensures Index(WriteAddress(Year)) == 70 && Index(ReadAddress(Year)) == 70
    ensures Index(WriteAddress(Weekday)) == 69 && Index(ReadAddress(Weekday)) == 69
    ensures Index(WriteAddress(Month)) == 68 && Index(ReadAddress(Month)) == 68
    ensures Index(WriteAddress(MDay)) == 67 && Index(ReadAddress(MDay)) == 67
    ensures Index(WriteAddress(Hours)) == 66 && Index(ReadAddress(Hours)) == 66
    ensures Index(WriteAddress(Minutes)) == 65 && Index(ReadAddress(Minutes)) == 65
    ensures Index(WriteAddress(Seconds)) == 64 && Index(ReadAddress(Seconds)) == 64
  {
  }

  /**
   * The register the k-th store of the date transaction selects:
   * write-protect (71), year (70), then month down to seconds (68..64);
   * the weekday register (69) is never written.
   */
  function DateSlot(k: nat): (j: nat)
    requires k < 7
    ensures j < 128
  {
    if k <= 1 then 71 - k else 70 - k
  }

  lemma DatePlanSlot(secondsRaw: bv8, d: Date, k: nat)
    requires k < 7
    ensures Index(DatePlan(secondsRaw, d)[k].command) == DateSlot(k)
  {
    DateIndices();
  }

  /** After n stores, the slot of the k-th one (k < n) holds what its mask keeps of that store: no later store selects it. */
  lemma DateChipSlot(c: Chip, secondsRaw: bv8, d: Date, n: nat, k: nat)
    requires c.Valid() && k < n <= 7
    ensures DateChip(c, secondsRaw, d, n).regs[DateSlot(k)] == DatePlan(secondsRaw, d)[k].value & c.mask[DateSlot(k)]
  {
    var stores := DatePlan(secondsRaw, d)[..n];
    DatePlanSlot(secondsRaw, d, k);
    forall i | k < i < n
      ensures Index(stores[i].command) != Index(stores[k].command)
    {
      DatePlanSlot(secondsRaw, d, i);
    }
    StoreAllHit(c, stores, k);
    DateChipStores(c, secondsRaw, d, n);
  }

  /** The seven registers after the date transaction's stores: each holds what its mask keeps of its write. */
  lemma DateRegisters(c: Chip, d: Date)
    requires c.Valid()
    ensures var r := DateChip(c, c.regs[64], d, 7).regs;
            && r[71] == 0 & c.mask[71]
            && r[70] == Encode(d.year) & c.mask[70]
            && r[68] == Encode(d.month) & c.mask[68]
            && r[67] == Encode(d.mday) & c.mask[67]
            && r[66] == Encode(d.hours) & c.mask[66]
            && r[65] == Encode(d.minutes) & c.mask[65]
            && r[64] == SecondsByte(c.regs[64], d.seconds) & c.mask[64]
  {
    var raw := c.regs[64];
    DateChipSlot(c, raw, d, 7, 0);
    DateChipSlot(c, raw, d, 7, 1);
    DateChipSlot(c, raw, d, 7, 2);
    DateChipSlot(c, raw, d, 7, 3);
    DateChipSlot(c, raw, d, 7, 4);
    DateChipSlot(c, raw, d, 7, 5);
    DateChipSlot(c, raw, d, 7, 6);
  }

  /** A field value written through a store that keeps every bit reads back as itself. */
  lemma IdealFieldReadsBack(f: Field, v: bv8, stored: bv8, mask: bv8)
    requires InRange(f, v) && mask == 0xFF && stored == Encode(v) & mask
    ensures FieldValue(f, stored) == Ok(v)
  {
    FieldRoundTrip(f, v);
  }

  /** Six successful reads make a successful date read, and a read-back equal to the date written reports 0. */
  lemma ReadDateOk(regs: seq<bv8>, d: Date)
    requires |regs| == 128
    requires FieldValue(Year, regs[70]) == Ok(d.year) && FieldValue(Month, regs[68]) == Ok(d.month)
    requires FieldValue(MDay, regs[67]) == Ok(d.mday) && FieldValue(Hours, regs[66]) == Ok(d.hours)
    requires FieldValue(Minutes, regs[65]) == Ok(d.minutes) && FieldValue(Seconds, regs[64]) == Ok(d.seconds)
    ensures ReadDate(regs) == Ok(d) && DateOutcome(regs, d) == Ok(0)
  {
    DateIndices();
  }

  /**
   * On an ideal store, an in-range date written by ds1302_write_date reads
   * back field by field as written, so the transaction reports 0.
   */
  lemma WriteDateIdeal(c: Chip, d: Date)
    requires c.Valid() && IdealForDate(c) && ValidPrefix(d) == 6
    ensures var r := DateChip(c, c.regs[Index(ReadAddress(Seconds))], d, 7).regs;
            && ReadDate(r) == Ok(d)
            && DateOutcome(r, d) == Ok(0)
  {
    DateIndices();
    var raw := c.regs[64];
    var r := DateChip(c, raw, d, 7).regs;
    assert Values(d)[0] == d.year && Values(d)[5] == d.seconds;
    assert InRange(Year, d.year) && InRange(Month, d.month) && InRange(MDay, d.mday);
    assert InRange(Hours, d.hours) && InRange(Minutes, d.minutes) && InRange(Seconds, d.seconds);
    assert c.mask[70] == 0xFF && c.mask[68] == 0xFF && c.mask[67] == 0xFF;
    assert c.mask[66] == 0xFF && c.mask[65] == 0xFF && c.mask[64] == 0xFF;
    DateRegisters(c, d);
    IdealFieldReadsBack(Year, d.year, r[70], c.mask[70]);
    IdealFieldReadsBack(Month, d.month, r[68], c.mask[68]);
    IdealFieldReadsBack(MDay, d.mday, r[67], c.mask[67]);
    IdealFieldReadsBack(Hours, d.hours, r[66], c.mask[66]);
    IdealFieldReadsBack(Minutes, d.minutes, r[65], c.mask[65]);
    SecondsWriteKeepsHalt(raw, d.seconds);
    ReadDateOk(r, d);
  }

  /**
   * The aggregate cannot tell a match from a mismatch: differences can cancel,
   * and a sum of 256 is cut to 0 by the eight-bit return type.
   */
  lemma DateDiffAmbiguous()
    ensures DateDiff(Date(10, 12, 1, 0, 0, 0), Date(20, 2, 1, 0, 0, 0)) == 0
    ensures DateDiff(Date(99, 12, 31, 24, 59, 59), Date(0, 1, 1, 0, 0, 26)) == 0
  {
  }
}
