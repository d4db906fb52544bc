/**
 * The chip at the far end of the bus, as an abstract register store that
 * reacts to the host's clock edges. It is the environment the driver talks
 * to, not part of the driver: it gives ds1302_read_bit something to sample
 * and lets the contracts say which register a transaction reads or writes.
 *
 * Protocol, as the driver drives it: every chip-enable edge starts afresh;
 * while chip-enable is high the chip latches the data line at each rising
 * clock edge, least-significant bit first. Bit 0 of the first eight bits
 * (the command byte) selects the direction. A write command latches eight
 * more bits and stores them at the sixteenth edge. A read command makes the
 * chip present bit k of the register after the (k+1)-th falling edge,
 * counting the falling edge that ends the last command bit.
 *
 * The register a command selects is its bits 1..7 (`Index`). `mask` holds
 * the bits each register keeps on a store; an all-ones mask is an ideal
 * store that returns every written bit. `log` records every store, so that
 * contracts can state the order of writes.
 */
module Chip {
  import opened Wire

  /** A store the chip carried out: the command byte it received and the data byte after it. */
  datatype Stored = Stored(command: bv8, value: bv8)

  /** The register selected by a command byte: bits 1..7, so a read and a write command share it. */
  function Index(command: bv8): (i: nat)
    ensures i < 128
  {
    (command >> 1) as nat
  }

  datatype Chip = Chip(regs: seq<bv8>, mask: seq<bv8>, rx: seq<bool>, tx: nat, log: seq<Stored>)
  {
    predicate Valid() {
      |regs| == 128 && |mask| == 128 && |rx| <= 16
    }

    /** No transfer in progress. */
    predicate Idle() {
      rx == [] && tx == 0
    }

    /** A read command has been received: the chip drives the data line. */
    predicate Reading() {
      |rx| >= 8 && rx[0]
    }

    /** The command byte of the current transfer. */
    function Command(): bv8
      requires 8 <= |rx| <= 16
    {
      FromBits(rx[..8])
    }

    /** The register at `command` takes the bits of `value` its mask keeps. */
    function Store(command: bv8, value: bv8): (c: Chip)
      requires Valid()
      ensures c.Valid()
    {
      var i := Index(command);
      this.(regs := regs[i := value & mask[i]], log := log + [Stored(command, value)])
    }

    /** A chip-enable edge abandons any transfer. */
    function Reset(): (c: Chip)
      ensures c.Idle()
    {
      this.(rx := [], tx := 0)
    }

    /** A rising clock edge with the data line at `level`. */
    function Rise(level: bool): (c: Chip)
      requires Valid()
      ensures c.Valid()
    {
      if Reading() || |rx| == 16 then this
      else if |rx| == 15 then
        var full := this.(rx := rx + [level]);
        full.Store(full.Command(), FromBits(full.rx[8..]))
      else this.(rx := rx + [level])
    }

    /** A falling clock edge: during a read the chip moves on to the next bit. */
    function Fall(): Chip {
      if Reading() then this.(tx := tx + 1) else this
    }

    /** The chip presents a data bit on the line. */
    predicate Driving() {
      Reading() && 1 <= tx <= 8
    }

    /** The bit the chip presents. */
    function Out(): bool
      requires Valid() && Driving()
    {
      BitOf(regs[Index(Command())], tx - 1)
    }
  }

  /** A sequence of stores applied in order. */
  function StoreAll(c: Chip, plan: seq<Stored>): (r: Chip)
    requires c.Valid()
    decreases |plan|
    ensures r.Valid() && r.mask == c.mask
  {
    if plan == [] then c
    else
      var last := plan[|plan| - 1];
      StoreAll(c, plan[..|plan| - 1]).Store(last.command, last.value)
  }

  /** A store sets the register it selects to the bits its mask keeps. */
  lemma StoreHits(c: Chip, command: bv8, value: bv8, j: nat)
    requires c.Valid() && j == Index(command)
    ensures c.Store(command, value).regs[j] == value & c.mask[j]
    ensures c.Store(command, value).mask == c.mask
  {
  }

  /** A store leaves every other register as it was. */
  lemma StoreMisses(c: Chip, command: bv8, value: bv8, j: nat)
    requires c.Valid() && j < 128 && j != Index(command)
    ensures c.Store(command, value).regs[j] == c.regs[j]
    ensures c.Store(command, value).mask == c.mask
  {
  }

  /** A register no store of the sequence selects keeps its contents. */
  lemma {:induction false} StoreAllMiss(c: Chip, plan: seq<Stored>, j: nat)
    requires c.Valid() && j < 128
    requires forall i :: 0 <= i < |plan| ==> Index(plan[i].command) != j
    decreases |plan|
    ensures StoreAll(c, plan).regs[j] == c.regs[j]
  {
    if plan != [] {
      var n := |plan| - 1;
      StoreAllMiss(c, plan[..n], j);
      StoreMisses(StoreAll(c, plan[..n]), plan[n].command, plan[n].value, j);
    }
  }

  /** Applying two plans one after the other is applying their concatenation. */
  lemma {:induction false} StoreAllSplit(c: Chip, first: seq<Stored>, second: seq<Stored>)
    requires c.Valid()
    decreases |second|
    ensures StoreAll(c, first + second) == StoreAll(StoreAll(c, first), second)
  {
    if second != [] {
      var n := |second| - 1;
      assert (first + second)[..|first + second| - 1] == first + second[..n];
      StoreAllSplit(c, first, second[..n]);
    } else {
      assert first + second == first;
    }
  }

  /** No store after the k-th selects its register. */
  predicate NoLaterHit(plan: seq<Stored>, k: nat)
    requires k < |plan|
  {
    forall i :: k < i < |plan| ==> Index(plan[i].command) != Index(plan[k].command)
  }

  /**
   * The register of the k-th store, selected by no later one, ends up with
   * what its mask keeps of that store's value: the stores up to the k-th
   * put it there, and the later ones miss it.
   */
  lemma StoreAllHit(c: Chip, plan: seq<Stored>, k: nat)
    requires c.Valid() && k < |plan| && NoLaterHit(plan, k)
    ensures StoreAll(c, plan).regs[Index(plan[k].command)] == plan[k].value & c.mask[Index(plan[k].command)]
  {
    var j := Index(plan[k].command);
    var upTo, rest := plan[..k + 1], plan[k + 1..];
    assert plan == upTo + rest;
    StoreAllSplit(c, upTo, rest);
    forall i | 0 <= i < |rest|
      ensures Index(rest[i].command) != j
    {
      assert plan[k + 1..][i] == plan[k + 1 + i];
      assert rest[i] == plan[k + 1 + i];
    }
    StoreAllMiss(StoreAll(c, upTo), rest, j);
    assert upTo[..k] == plan[..k];
    StoreHits(StoreAll(c, plan[..k]), plan[k].command, plan[k].value, j);
  }

  /** The data line's level as the host samples it: the chip's bit, or else the level last written. */
  function LineLevel(c: Chip, dat: bool): bool
    requires c.Valid()
  {
    if c.Driving() then c.Out() else dat
  }

  /** The chip after the host has sent `bits` with ds1302_write_bit. */
  function SendBits(c: Chip, bits: seq<bool>): (r: Chip)
    requires c.Valid()
    ensures r.Valid()
    decreases |bits|
  {
    if bits == [] then c else SendBits(c, bits[..|bits| - 1]).Rise(bits[|bits| - 1]).Fall()
  }

  /** One more bit sent is one more rising and falling edge. */
  lemma SendBitsStep(c: Chip, bits: seq<bool>, i: nat)
    requires c.Valid() && i < |bits|
    ensures SendBits(c, bits[..i + 1]) == SendBits(c, bits[..i]).Rise(bits[i]).Fall()
  {
    assert bits[..i + 1][..i] == bits[..i];
  }

  /** The chip after n calls of ds1302_read_bit, the host's data level staying `dat`. */
  function Clocks(c: Chip, dat: bool, n: nat): (r: Chip)
    requires c.Valid()
    decreases n
    ensures r.Valid()
  {
    if n == 0 then c else Clocks(c, dat, n - 1).Rise(dat).Fall()
  }

  /** The levels those n calls of ds1302_read_bit sample. */
  function Readout(c: Chip, dat: bool, n: nat): (bits: seq<bool>)
    requires c.Valid()
    decreases n
    ensures |bits| == n
  {
    if n == 0 then [] else Readout(c, dat, n - 1) + [LineLevel(Clocks(c, dat, n - 1), dat)]
  }

  /** One more call of ds1302_read_bit: one more clock pulse, one more sample of the line. */
  lemma ReadoutNext(c: Chip, dat: bool, n: nat)
    requires c.Valid()
    ensures Clocks(c, dat, n + 1) == Clocks(c, dat, n).Rise(dat).Fall()
    ensures Readout(c, dat, n + 1) == Readout(c, dat, n) + [LineLevel(Clocks(c, dat, n), dat)]
  {
  }

  /** Sending the first bits of a transfer only collects them; the eighth may start a read. */
  lemma {:induction false} CommandPhase(c: Chip, bits: seq<bool>)
    requires c.Valid() && c.Idle() && |bits| <= 8
    ensures SendBits(c, bits) == c.(rx := bits, tx := if |bits| == 8 && bits[0] then 1 else 0)
    decreases |bits|
  {
    if bits != [] {
      var n := |bits| - 1;
      CommandPhase(c, bits[..n]);
      assert bits[..n] + [bits[n]] == bits;
    }
  }

  /** After a write command, the next eight bits are collected and stored at the eighth. */
  lemma {:induction false} DataPhase(c: Chip, bits: seq<bool>)
    requires c.Valid() && |c.rx| == 8 && !c.rx[0] && c.tx == 0 && |bits| <= 8
    ensures |bits| < 8 ==> SendBits(c, bits) == c.(rx := c.rx + bits)
    ensures |bits| == 8 ==> SendBits(c, bits) == c.Store(c.Command(), FromBits(bits)).(rx := c.rx + bits)
    decreases |bits|
  {
    if bits != [] {
      var n := |bits| - 1;
      DataPhase(c, bits[..n]);
      var before := c.(rx := c.rx + bits[..n]);
      assert before.rx + [bits[n]] == c.rx + bits;
      if n == 7 {
        var full := before.(rx := c.rx + bits);
        assert full.rx[..8] == c.rx[..8] == c.rx;
        assert full.rx[8..] == bits;
      }
    }
  }

  /** During a read, each call of ds1302_read_bit moves the chip on by one falling edge. */
  lemma {:induction false} ClocksDuringRead(c: Chip, dat: bool, n: nat)
    requires c.Valid() && c.Reading()
    decreases n
    ensures Clocks(c, dat, n) == c.(tx := c.tx + n)
  {
    if n > 0 {
      ClocksDuringRead(c, dat, n - 1);
    }
  }

  /** After k calls of ds1302_read_bit, the line carries bit tx - 1 + k of the selected register. */
  lemma ReadLevel(c: Chip, dat: bool, k: nat)
    requires c.Valid() && c.Reading() && 1 <= c.tx && c.tx + k <= 8
    ensures LineLevel(Clocks(c, dat, k), dat) == Bits(c.regs[Index(c.Command())])[c.tx - 1 + k]
  {
    var d := c.(tx := c.tx + k);
    assert d.Driving() && d.Command() == c.Command();
    ClocksDuringRead(c, dat, k);
  }

  /** The j-th sample of a read is the line level after j calls of ds1302_read_bit. */
  lemma {:induction false} ReadoutAt(c: Chip, dat: bool, n: nat, j: nat)
    requires c.Valid() && j < n
    decreases n
    ensures Readout(c, dat, n)[j] == LineLevel(Clocks(c, dat, j), dat)
  {
    if j < n - 1 {
      ReadoutAt(c, dat, n - 1, j);
    }
  }

  /** During a read, each call of ds1302_read_bit samples the next bit of the selected register. */
  lemma ReadPhase(c: Chip, dat: bool, n: nat)
    requires c.Valid() && c.Reading() && 1 <= c.tx && c.tx - 1 + n <= 8
    ensures Readout(c, dat, n) == Bits(c.regs[Index(c.Command())])[c.tx - 1 .. c.tx - 1 + n]
  {
    var bits := Bits(c.regs[Index(c.Command())]);
    forall j | 0 <= j < n
      ensures Readout(c, dat, n)[j] == bits[c.tx - 1 + j]
    {
      ReadoutAt(c, dat, n, j);
      ReadLevel(c, dat, j);
    }
  }

  /** The eight bits of a command byte, sent to an idle chip, are its command; bit 0 decides whether it starts a read. */
  lemma SentCommand(c: Chip, command: bv8)
    requires c.Valid() && c.Idle()
    ensures var sent := SendBits(c, Bits(command));
            && sent == c.(rx := Bits(command), tx := if BitOf(command, 0) then 1 else 0)
            && sent.Command() == command
  {
    CommandPhase(c, Bits(command));
    CommandOfBits(c.(rx := Bits(command)), command);
  }

  lemma CommandOfBits(c: Chip, command: bv8)
    requires c.rx == Bits(command)
    ensures c.Command() == command
  {
    FromBitsOfBits(command);
    assert c.rx[..8] == c.rx;
  }

  /**
   * A whole read transaction, from an idle chip: the command with bit 0 set
   * puts the chip in read mode, the eight samples are the bits of the
   * register at the command's index, and the closing chip-enable edge leaves
   * the chip exactly as it was.
   */
  lemma ReadTransaction(c: Chip, command: bv8, dat: bool)
    requires c.Valid() && c.Idle()
    ensures var sent := SendBits(c, Bits(command | 0x01));
            && sent.Reading()
            && 1 <= sent.tx
            && Readout(sent, dat, 8) == Bits(c.regs[Index(command | 0x01)])
            && Clocks(sent, dat, 8).Reset() == c
  {
    var read := command | 0x01;
    assert BitOf(read, 0);
    SentCommand(c, read);
    var sent := SendBits(c, Bits(read));
    ReadPhase(sent, dat, 8);
    ClocksDuringRead(sent, dat, 8);
    WholeSlice(Bits(c.regs[Index(read)]));
  }

  lemma WholeSlice(s: seq<bool>)
    requires |s| == 8
    ensures s[0..8] == s
  {
  }

  /**
   * A whole write transaction, from an idle chip: the command with bit 0
   * clear, then the value, store the value at the command's index.
   */
  lemma WriteTransaction(c: Chip, command: bv8, value: bv8)
    requires c.Valid() && c.Idle()
    ensures SendBits(SendBits(c, Bits(command & 0xFE)), Bits(value)).Reset() == c.Store(command & 0xFE, value)
  {
    var write := command & 0xFE;
    assert !BitOf(write, 0);
    SentCommand(c, write);
    DataPhase(SendBits(c, Bits(write)), Bits(value));
    FromBitsOfBits(value);
  }

  /** The read-back command of ds1302_write_and_check selects the register the write command did. */
  lemma ReadBackSameRegister(command: bv8)
    ensures Index((command | 0x01) | 0x01) == Index(command & 0xFE) == Index(command)
  {
    assert ((command | 0x01) | 0x01) >> 1 == command >> 1;
    assert (command & 0xFE) >> 1 == command >> 1;
  }

  /** Reading back the register just written returns the bits its mask kept. */
  lemma StoredReadBack(c: Chip, command: bv8, value: bv8)
    requires c.Valid()
    ensures c.Store(command & 0xFE, value).regs[Index((command | 0x01) | 0x01)] == value & c.mask[Index(command)]
  {
    ReadBackSameRegister(command);
  }
}
