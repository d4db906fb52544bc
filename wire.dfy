/**
 * The 3-wire serial bus as the host sees it: how a byte is split into bits
 * (least-significant first) and put back together, the GPIO events the
 * driver issues (pin direction, level written, level sampled, delay), the
 * event sequences of one bit, one byte and one command transaction, and an
 * observer that replays a trace on the three lines and recovers the bits the
 * host drove at each rising clock edge.
 */
module Wire {

  /** The three lines of the bus, by role. The handle maps each to a GPIO number. */
  datatype Line = Ce | Clk | Dat

  datatype PinMode = Input | Output

  /** One call into the GPIO library. */
  datatype Event =
    | InitGpio                          // wiringPiSetupGpio()
    | SetMode(line: Line, mode: PinMode)  // pinMode(pin, mode)
    | Drive(line: Line, level: bool)      // digitalWrite(pin, level)
    | Sample(line: Line, level: bool)     // digitalRead(pin), with the level it returned
    | Delay(us: nat)                      // delayMicroseconds(us)

  /** The byte with only bit i set, for i in 0..7. */
  function Mask(i: nat): bv8
    requires i < 8
  {
    if i == 0 then 0x01 else if i == 1 then 0x02 else if i == 2 then 0x04 else if i == 3 then 0x08
    else if i == 4 then 0x10 else if i == 5 then 0x20 else if i == 6 then 0x40 else 0x80
  }

  /** Bit i of b as a level, for i in 0..7. */
  predicate BitOf(b: bv8, i: nat)
    requires i < 8
  {
    b & Mask(i) != 0
  }

  /** Shifting right by i and keeping bit 0 isolates bit i. */
  lemma ShiftBit(b: bv8, i: nat)
    requires i < 8
    ensures ((b >> i) & 1 != 0) == BitOf(b, i)
  {
    if i == 0 {} else if i == 1 {} else if i == 2 {} else if i == 3 {}
    else if i == 4 {} else if i == 5 {} else if i == 6 {} else {}
  }

  /** Bit i of b as the number 0 or 1, as ds1302_write_byte passes it on. */
  function BitValue(b: bv8, i: nat): (r: bv8)
    requires i < 8
    ensures r <= 1 && (r != 0 <==> BitOf(b, i))
  {
    ShiftBit(b, i);
    (b >> i) & 1
  }

  /** A bit of value 0 or 1 moved to position i, as ds1302_read_byte or-s it in. */
  function Place(bit: bv8, i: nat): (r: bv8)
    requires i < 8
    ensures bit == 0 ==> r == 0
    ensures bit == 1 ==> r == Mask(i)
  {
    if i == 0 then bit << 0 else if i == 1 then bit << 1 else if i == 2 then bit << 2
    else if i == 3 then bit << 3 else if i == 4 then bit << 4 else if i == 5 then bit << 5
    else if i == 6 then bit << 6 else bit << 7
  }

  /** The eight bits of b, least-significant first: the order in which ds1302_write_byte sends them. */
  function Bits(b: bv8): (bits: seq<bool>)
    ensures |bits| == 8
  {
    seq(8, i requires 0 <= i < 8 => BitOf(b, i))
  }

  /** The byte whose bit i is bits[i]: what ds1302_read_byte accumulates with `byte |= b << i`. */
  function FromBits(bits: seq<bool>): (b: bv8)
    requires |bits| <= 8
    decreases |bits|
  {
    if bits == [] then 0
    else FromBits(bits[..|bits| - 1]) | (if bits[|bits| - 1] then Mask(|bits| - 1) else 0)
  }

  /** Distinct positions have disjoint masks. */
  lemma MaskBit(n: nat, i: nat)
    requires n < 8 && i < 8
    ensures BitOf(Mask(n), i) == (i == n)
  {
  }

  /** A bit of an or is set exactly when it is set in either operand. */
  lemma OrBit(x: bv8, y: bv8, i: nat)
    requires i < 8
    ensures BitOf(x | y, i) == (BitOf(x, i) || BitOf(y, i))
  {
    var m := Mask(i);
    assert (x | y) & m == (x & m) | (y & m);
  }

  /** Bit i of a reassembled byte is bits[i]; the bits beyond |bits| are clear. */
  lemma {:induction false} FromBitsBit(bits: seq<bool>, i: nat)
    requires |bits| <= 8 && i < 8
    decreases |bits|
    ensures BitOf(FromBits(bits), i) == (i < |bits| && bits[i])
  {
    if bits != [] {
      var n := |bits| - 1;
      FromBitsBit(bits[..n], i);
      var high: bv8 := if bits[n] then Mask(n) else 0;
      MaskBit(n, i);
      assert BitOf(high, i) == (i == n && bits[n]);
      OrBit(FromBits(bits[..n]), high, i);
      if i < n {
        assert bits[..n][i] == bits[i];
      }
    }
  }

  /** Two bytes that agree on all eight bits are equal. */
  lemma BitsExtensional(x: bv8, y: bv8)
    requires forall i: nat | i < 8 :: BitOf(x, i) == BitOf(y, i)
    ensures x == y
  {
    assert BitOf(x, 0) == BitOf(y, 0) && BitOf(x, 1) == BitOf(y, 1);
    assert BitOf(x, 2) == BitOf(y, 2) && BitOf(x, 3) == BitOf(y, 3);
    assert BitOf(x, 4) == BitOf(y, 4) && BitOf(x, 5) == BitOf(y, 5);
    assert BitOf(x, 6) == BitOf(y, 6) && BitOf(x, 7) == BitOf(y, 7);
  }

  /** Reassembling the bits of a byte gives the byte back. */
  lemma FromBitsOfBits(b: bv8)
    ensures FromBits(Bits(b)) == b
  {
    forall i: nat | i < 8
      ensures BitOf(FromBits(Bits(b)), i) == BitOf(b, i)
    {
      FromBitsBit(Bits(b), i);
    }
    BitsExtensional(FromBits(Bits(b)), b);
  }

  /** Eight levels are the bits of exactly one byte: sending a byte and reading it back are inverse. */
  lemma BitsOfFromBits(bits: seq<bool>)
    requires |bits| == 8
    ensures Bits(FromBits(bits)) == bits
  {
    forall i | 0 <= i < 8
      ensures Bits(FromBits(bits))[i] == bits[i]
    {
      FromBitsBit(bits, i);
    }
  }

  /** ds1302_write_bit: data level, setup time, clock up, hold, data low, clock down. */
  function WriteBitEvents(level: bool): seq<Event> {
    [Drive(Dat, level), Delay(1), Drive(Clk, true), Delay(2), Drive(Dat, false), Delay(1), Drive(Clk, false)]
  }

  /** ds1302_read_bit: sample the data line, then one clock pulse. */
  function ReadBitEvents(level: bool): seq<Event> {
    [Sample(Dat, level), Delay(1), Drive(Clk, true), Delay(1), Drive(Clk, false), Delay(1)]
  }

  /** One WriteBitEvents block per level, in order. */
  function SendEvents(bits: seq<bool>): (t: seq<Event>)
    ensures |t| == 7 * |bits|
  {
    seq(7 * |bits|, j requires 0 <= j < 7 * |bits| => WriteBitEvents(bits[j / 7])[j % 7])
  }

  /** One ReadBitEvents block per level sampled, in order. */
  function ReceiveEvents(bits: seq<bool>): (t: seq<Event>)
    ensures |t| == 6 * |bits|
  {
    seq(6 * |bits|, j requires 0 <= j < 6 * |bits| => ReadBitEvents(bits[j / 6])[j % 6])
  }

  /** One more level sent appends one bit's events. */
  lemma SendEventsSnoc(bits: seq<bool>, level: bool)
    ensures SendEvents(bits + [level]) == SendEvents(bits) + WriteBitEvents(level)
  {
    var n := |bits|;
    var s := bits + [level];
    var lhs := SendEvents(s);
    var rhs := SendEvents(bits) + WriteBitEvents(level);
    forall j | 0 <= j < 7 * (n + 1)
      ensures lhs[j] == rhs[j]
    {
      if j < 7 * n {
        assert j / 7 < n;
        assert s[j / 7] == bits[j / 7];
      } else {
        assert j / 7 == n && j % 7 == j - 7 * n;
      }
    }
  }

  /** One more level sampled appends one bit's events. */
  lemma ReceiveEventsSnoc(bits: seq<bool>, level: bool)
    ensures ReceiveEvents(bits + [level]) == ReceiveEvents(bits) + ReadBitEvents(level)
  {
    var n := |bits|;
    var s := bits + [level];
    var lhs := ReceiveEvents(s);
    var rhs := ReceiveEvents(bits) + ReadBitEvents(level);
    forall j | 0 <= j < 6 * (n + 1)
      ensures lhs[j] == rhs[j]
    {
      if j < 6 * n {
        assert j / 6 < n;
        assert s[j / 6] == bits[j / 6];
      } else {
        assert j / 6 == n && j % 6 == j - 6 * n;
      }
    }
  }

  /** One more bit sent appends one bit's events to whatever trace came before. */
  lemma SendEventsStep(t: seq<Event>, bits: seq<bool>, i: nat)
    requires i < |bits|
    ensures t + SendEvents(bits[..i + 1]) == t + SendEvents(bits[..i]) + WriteBitEvents(bits[i])
  {
    assert bits[..i + 1] == bits[..i] + [bits[i]];
    SendEventsSnoc(bits[..i], bits[i]);
  }

  /** One more bit received appends one bit's events to whatever trace came before. */
  lemma ReceiveEventsStep(t: seq<Event>, bits: seq<bool>, level: bool)
    ensures t + ReceiveEvents(bits + [level]) == t + ReceiveEvents(bits) + ReadBitEvents(level)
  {
    ReceiveEventsSnoc(bits, level);
  }

  /** Or-ing the next bit, as 0 or 1 shifted into place, onto the byte gathered so far. */
  lemma FromBitsStep(bits: seq<bool>, level: bool)
    requires |bits| < 8
    ensures FromBits(bits + [level]) == FromBits(bits) | Place(if level then 1 else 0, |bits|)
  {
    assert (bits + [level])[..|bits|] == bits;
  }

  /** One more round of ds1302_read_byte: or-ing the level read into bit i extends the byte assembled so far. */
  lemma ReadByteStep(byte: bv8, bits: seq<bool>, level: bool, b: bv8, i: nat)
    requires |bits| == i < 8 && byte == FromBits(bits) && b == (if level then 1 else 0)
    ensures byte | Place(b, i) == FromBits(bits + [level])
  {
    FromBitsStep(bits, level);
  }

  /** ds1302_start_transfer: chip-enable up, then the 5 us access setup. */
  function StartEvents(): seq<Event> {
    [Drive(Ce, true), Delay(5)]
  }

  /** ds1302_stop_transfer: clock low, chip-enable low, data low. */
  function StopEvents(): seq<Event> {
    [Drive(Clk, false), Drive(Ce, false), Drive(Dat, false)]
  }

  /** ds1302_read_command: the command with bit 0 set, a turn-around of the data line, one byte in. */
  function ReadCommandEvents(command: bv8, value: bv8): seq<Event> {
    StartEvents() + [SetMode(Dat, Output)] + SendEvents(Bits(command | 0x01))
    + [SetMode(Dat, Input), Delay(1)] + ReceiveEvents(Bits(value)) + StopEvents()
  }

  /** ds1302_write_command: the command with bit 0 clear, then the value. */
  function WriteCommandEvents(command: bv8, value: bv8): seq<Event> {
    StartEvents() + [SetMode(Dat, Output)] + SendEvents(Bits(command & 0xFE)) + SendEvents(Bits(value))
    + StopEvents()
  }

  /** The levels of the three lines and the direction of the data line. */
  datatype Pins = Pins(ce: bool, clk: bool, dat: bool, datMode: PinMode)

  function Step(p: Pins, e: Event): Pins {
    match e
    case Drive(Ce, level) => p.(ce := level)
    case Drive(Clk, level) => p.(clk := level)
    case Drive(Dat, level) => p.(dat := level)
    case SetMode(Dat, mode) => p.(datMode := mode)
    case _ => p
  }

  /** The level the host drives on the data line, if e is a rising clock edge while it drives it. */
  function Clocked(p: Pins, e: Event): seq<bool> {
    if e == Drive(Clk, true) && !p.clk && p.datMode == Output then [p.dat] else []
  }

  /** The level the host reads, if e is a sample of the data line. */
  function Sampled(e: Event): seq<bool> {
    match e
    case Sample(Dat, level) => [level]
    case _ => []
  }

  /**
   * What a listener on the bus has seen so far: the line state, the data
   * levels the host clocked out at each rising clock edge, and the levels
   * the host sampled.
   */
  datatype Observation = Observation(lines: Pins, sent: seq<bool>, sampled: seq<bool>)

  /** The listener's step on one event. */
  function Next(o: Observation, e: Event): Observation {
    Observation(Step(o.lines, e), o.sent + Clocked(o.lines, e), o.sampled + Sampled(e))
  }

  /** The listener after a trace, starting from o. */
  function Observe(t: seq<Event>, o: Observation): Observation
    decreases |t|
  {
    if t == [] then o else Next(Observe(t[..|t| - 1], o), t[|t| - 1])
  }

  /** Observing two traces one after the other is observing their concatenation. */
  lemma {:induction false} ObserveAppend(a: seq<Event>, b: seq<Event>, o: Observation)
    ensures Observe(a + b, o) == Observe(b, Observe(a, o))
    decreases |b|
  {
    if b == [] {
      assert a + b == a;
    } else {
      var n := |b| - 1;
      assert (a + b)[..|a + b| - 1] == a + b[..n];
      assert (a + b)[|a + b| - 1] == b[n];
      ObserveAppend(a, b[..n], o);
    }
  }

  /** One more event at the end of a trace is one more step of the listener. */
  lemma ObserveSnoc(t: seq<Event>, e: Event, o: Observation)
    ensures Observe(t + [e], o) == Next(Observe(t, o), e)
  {
    assert (t + [e])[..|t|] == t;
  }

  /** The seven events of one written bit, one at a time. */
  lemma WriteBitEventsSnoc(level: bool)
    ensures WriteBitEvents(level)
            == [] + [Drive(Dat, level)] + [Delay(1)] + [Drive(Clk, true)] + [Delay(2)]
               + [Drive(Dat, false)] + [Delay(1)] + [Drive(Clk, false)]
  {
  }

  /** Observing one written bit is seven steps of the listener. */
  lemma WriteBitSteps(level: bool, o: Observation)
    ensures Observe(WriteBitEvents(level), o)
            == Next(Next(Next(Next(Next(Next(Next(o, Drive(Dat, level)), Delay(1)), Drive(Clk, true)), Delay(2)),
                    Drive(Dat, false)), Delay(1)), Drive(Clk, false))
  {
    var t0: seq<Event> := [];
    var t1 := t0 + [Drive(Dat, level)];
    ObserveSnoc(t0, Drive(Dat, level), o);
    var t2 := t1 + [Delay(1)];
    ObserveSnoc(t1, Delay(1), o);
    var t3 := t2 + [Drive(Clk, true)];
    ObserveSnoc(t2, Drive(Clk, true), o);
    var t4 := t3 + [Delay(2)];
    ObserveSnoc(t3, Delay(2), o);
    var t5 := t4 + [Drive(Dat, false)];
    ObserveSnoc(t4, Drive(Dat, false), o);
    var t6 := t5 + [Delay(1)];
    ObserveSnoc(t5, Delay(1), o);
    var t7 := t6 + [Drive(Clk, false)];
    ObserveSnoc(t6, Drive(Clk, false), o);
    WriteBitEventsSnoc(level);
  }

  /** The seven steps of a written bit, from a low clock with the data line an output. */
  lemma WriteBitNext(level: bool, o: Observation)
    requires !o.lines.clk && o.lines.datMode == Output
    ensures Next(Next(Next(Next(Next(Next(Next(o, Drive(Dat, level)), Delay(1)), Drive(Clk, true)), Delay(2)),
                 Drive(Dat, false)), Delay(1)), Drive(Clk, false))
            == Observation(o.lines.(dat := false), o.sent + [level], o.sampled)
  {
  }

  /** One bit, sent from a low clock while the host drives the data line, is seen once at the rising edge. */
  lemma WriteBitObserved(level: bool, o: Observation)
    requires !o.lines.clk && o.lines.datMode == Output
    ensures Observe(WriteBitEvents(level), o) == Observation(o.lines.(dat := false), o.sent + [level], o.sampled)
  {
    WriteBitSteps(level, o);
    WriteBitNext(level, o);
  }

  /** Levels recorded so far, then all but the last of some more, then the last. */
  lemma AppendLast(s: seq<bool>, bits: seq<bool>)
    requires bits != []
    ensures s + bits[..|bits| - 1] + [bits[|bits| - 1]] == s + bits
  {
    assert bits[..|bits| - 1] + [bits[|bits| - 1]] == bits;
  }

  /** Bits sent one after another are seen in the same order: the byte leaves least-significant bit first. */
  lemma {:induction false} SendObserved(bits: seq<bool>, o: Observation)
    requires !o.lines.clk && o.lines.datMode == Output
    ensures Observe(SendEvents(bits), o)
            == Observation(if bits == [] then o.lines else o.lines.(dat := false), o.sent + bits, o.sampled)
    decreases |bits|
  {
    if bits == [] {
      assert o.sent + bits == o.sent;
    } else {
      var n := |bits| - 1;
      var front := SendEvents(bits[..n]);
      var last := WriteBitEvents(bits[n]);
      assert bits == bits[..n] + [bits[n]];
      SendEventsSnoc(bits[..n], bits[n]);
      SendObserved(bits[..n], o);
      ObserveAppend(front, last, o);
      WriteBitObserved(bits[n], Observe(front, o));
      AppendLast(o.sent, bits);
    }
  }

  /** The six events of one read bit, one at a time. */
  lemma ReadBitEventsSnoc(level: bool)
    ensures ReadBitEvents(level)
            == [] + [Sample(Dat, level)] + [Delay(1)] + [Drive(Clk, true)] + [Delay(1)]
               + [Drive(Clk, false)] + [Delay(1)]
  {
  }

  /** Observing one read bit is six steps of the listener. */
  lemma ReadBitSteps(level: bool, o: Observation)
    ensures Observe(ReadBitEvents(level), o)
            == Next(Next(Next(Next(Next(Next(o, Sample(Dat, level)), Delay(1)), Drive(Clk, true)), Delay(1)),
                    Drive(Clk, false)), Delay(1))
  {
    var t0: seq<Event> := [];
    var t1 := t0 + [Sample(Dat, level)];
    ObserveSnoc(t0, Sample(Dat, level), o);
    var t2 := t1 + [Delay(1)];
    ObserveSnoc(t1, Delay(1), o);
    var t3 := t2 + [Drive(Clk, true)];
    ObserveSnoc(t2, Drive(Clk, true), o);
    var t4 := t3 + [Delay(1)];
    ObserveSnoc(t3, Delay(1), o);
    var t5 := t4 + [Drive(Clk, false)];
    ObserveSnoc(t4, Drive(Clk, false), o);
    var t6 := t5 + [Delay(1)];
    ObserveSnoc(t5, Delay(1), o);
    ReadBitEventsSnoc(level);
  }

  /** The six steps of a read bit, from a low clock with the data line an input. */
  lemma ReadBitNext(level: bool, o: Observation)
    requires !o.lines.clk && o.lines.datMode == Input
    ensures Next(Next(Next(Next(Next(Next(o, Sample(Dat, level)), Delay(1)), Drive(Clk, true)), Delay(1)),
                 Drive(Clk, false)), Delay(1))
            == Observation(o.lines, o.sent, o.sampled + [level])
  {
  }

  /** Clock pulses while the data line is an input transmit nothing; the sample is the level read. */
  lemma ReadBitObserved(level: bool, o: Observation)
    requires !o.lines.clk && o.lines.datMode == Input
    ensures Observe(ReadBitEvents(level), o) == Observation(o.lines, o.sent, o.sampled + [level])
  {
    ReadBitSteps(level, o);
    ReadBitNext(level, o);
  }

  /** The levels sampled one after another are recorded in the same order. */
  lemma {:induction false} ReceiveObserved(bits: seq<bool>, o: Observation)
    requires !o.lines.clk && o.lines.datMode == Input
    ensures Observe(ReceiveEvents(bits), o) == Observation(o.lines, o.sent, o.sampled + bits)
    decreases |bits|
  {
    if bits == [] {
      assert o.sampled + bits == o.sampled;
    } else {
      var n := |bits| - 1;
      var front := ReceiveEvents(bits[..n]);
      var last := ReadBitEvents(bits[n]);
      assert bits == bits[..n] + [bits[n]];
      ReceiveEventsSnoc(bits[..n], bits[n]);
      ReceiveObserved(bits[..n], o);
      ObserveAppend(front, last, o);
      ReadBitObserved(bits[n], Observe(front, o));
      AppendLast(o.sampled, bits);
    }
  }

  /** Observing a short trace of up to three events, step by step. */
  lemma ObserveShort(t: seq<Event>, o: Observation)
    requires 1 <= |t| <= 3
    ensures |t| == 1 ==> Observe(t, o) == Next(o, t[0])
    ensures |t| == 2 ==> Observe(t, o) == Next(Next(o, t[0]), t[1])
    ensures |t| == 3 ==> Observe(t, o) == Next(Next(Next(o, t[0]), t[1]), t[2])
  {
    ObserveSnoc([], t[0], o);
    assert [] + [t[0]] == t[..1];
    if |t| >= 2 {
      ObserveSnoc(t[..1], t[1], o);
      assert t[..1] + [t[1]] == t[..2];
    }
    if |t| == 3 {
      ObserveSnoc(t[..2], t[2], o);
      assert t[..2] + [t[2]] == t;
    }
    if |t| == 2 {
      assert t[..2] == t;
    }
    if |t| == 1 {
      assert t[..1] == t;
    }
  }

  /** ds1302_start_transfer followed by ds1302_start_write: chip-enable high, data line an output. */
  lemma StartWriteObserved(o: Observation)
    ensures Observe(StartEvents() + [SetMode(Dat, Output)], o)
            == o.(lines := o.lines.(ce := true, datMode := Output))
  {
    ObserveShort(StartEvents() + [SetMode(Dat, Output)], o);
  }

  /** ds1302_stop_transfer: no rising edge, no sample, all three lines low. */
  lemma StopObserved(o: Observation)
    ensures Observe(StopEvents(), o) == o.(lines := o.lines.(ce := false, clk := false, dat := false))
  {
    ObserveShort(StopEvents(), o);
  }

  /** The direction change of ds1302_start_read: the data line becomes an input, then 1 us. */
  lemma StartReadObserved(o: Observation)
    ensures Observe([SetMode(Dat, Input), Delay(1)], o) == o.(lines := o.lines.(datMode := Input))
  {
    ObserveShort([SetMode(Dat, Input), Delay(1)], o);
  }

  /**
   * A read command, observed from lines with the clock low: the listener
   * sees exactly the command with bit 0 forced to 1 go out, the host samples
   * exactly the eight bits of the value, and all lines end low with the data
   * line an input.
   */
  lemma ReadCommandObserved(command: bv8, value: bv8, p: Pins)
    requires !p.clk
    ensures Observe(ReadCommandEvents(command, value), Observation(p, [], []))
            == Observation(Pins(false, false, false, Input), Bits(command | 0x01), Bits(value))
  {
    var cmd := Bits(command | 0x01);
    var data := Bits(value);
    var o0 := Observation(p, [], []);
    var a := StartEvents() + [SetMode(Dat, Output)];
    var p1 := p.(ce := true, datMode := Output);
    var p2 := p1.(dat := false);
    var p3 := p2.(datMode := Input);
    var t1 := a + SendEvents(cmd);
    assert Observe(t1, o0) == Observation(p2, cmd, []) by {
      StartWriteObserved(o0);
      SendObserved(cmd, Observation(p1, [], []));
      ObserveAppend(a, SendEvents(cmd), o0);
    }
    var t2 := t1 + [SetMode(Dat, Input), Delay(1)];
    assert Observe(t2, o0) == Observation(p3, cmd, []) by {
      StartReadObserved(Observation(p2, cmd, []));
      ObserveAppend(t1, [SetMode(Dat, Input), Delay(1)], o0);
    }
    var t3 := t2 + ReceiveEvents(data);
    assert Observe(t3, o0) == Observation(p3, cmd, data) by {
      ReceiveObserved(data, Observation(p3, cmd, []));
      ObserveAppend(t2, ReceiveEvents(data), o0);
    }
    StopObserved(Observation(p3, cmd, data));
    ObserveAppend(t3, StopEvents(), o0);
  }

  /**
   * A write command, observed from lines with the clock low: the listener
   * sees the command with bit 0 forced to 0, then the value, both
   * least-significant bit first; nothing is sampled.
   */
  lemma WriteCommandObserved(command: bv8, value: bv8, p: Pins)
    requires !p.clk
    ensures Observe(WriteCommandEvents(command, value), Observation(p, [], []))
            == Observation(Pins(false, false, false, Output), Bits(command & 0xFE) + Bits(value), [])
  {
    var cmd := Bits(command & 0xFE);
    var data := Bits(value);
    var o0 := Observation(p, [], []);
    var a := StartEvents() + [SetMode(Dat, Output)];
    var p1 := p.(ce := true, datMode := Output);
    var p2 := p1.(dat := false);
    var t1 := a + SendEvents(cmd);
    assert Observe(t1, o0) == Observation(p2, cmd, []) by {
      StartWriteObserved(o0);
      SendObserved(cmd, Observation(p1, [], []));
      ObserveAppend(a, SendEvents(cmd), o0);
    }
    var t2 := t1 + SendEvents(data);
    assert Observe(t2, o0) == Observation(p2, cmd + data, []) by {
      SendObserved(data, Observation(p2, cmd, []));
      ObserveAppend(t1, SendEvents(data), o0);
    }
    StopObserved(Observation(p2, cmd + data, []));
    ObserveAppend(t2, StopEvents(), o0);
  }

  /** The framing of every transaction: chip-enable first; clock, chip-enable and data low last. */
  predicate Framed(t: seq<Event>) {
    |t| >= 4 && t[0] == Drive(Ce, true) && t[|t| - 3..] == StopEvents()
  }

  /** Both kinds of command transaction begin by raising chip-enable and end with the stop sequence. */
  lemma CommandsFramed(command: bv8, value: bv8)
    ensures Framed(ReadCommandEvents(command, value))
    ensures Framed(WriteCommandEvents(command, value))
  {
    var rest := SendEvents(Bits(command | 0x01)) + [SetMode(Dat, Input), Delay(1)] + ReceiveEvents(Bits(value));
    assert ReadCommandEvents(command, value) == StartEvents() + [SetMode(Dat, Output)] + rest + StopEvents();
    var rest2 := SendEvents(Bits(command & 0xFE)) + SendEvents(Bits(value));
    assert WriteCommandEvents(command, value) == StartEvents() + [SetMode(Dat, Output)] + rest2 + StopEvents();
  }
}
