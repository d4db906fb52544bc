/**
 * The pure layer of the DS1302 driver: the BCD codec (ds1302_encode,
 * ds1302_decode), the range validator (ds1302_check_range) and the device
 * handle with its pin check (ds1302_check_device).
 *
 * Every C `uint8_t` is a `bv8`: Dafny's bit-vector arithmetic truncates to
 * eight bits exactly where the C code truncates on return. Where the C code
 * calls exit(1), the model returns `Err`.
 */
module Codec {

  /** The two fatal conditions of the driver. */
  datatype Error =
    | RangeError(min: bv8, max: bv8, value: bv8)   // ds1302_check_range rejected value
    | LengthError(length: bv8)                     // ds1302_decode got a width tag above 8

  datatype Result<T> = Ok(value: T) | Err(error: Error)

  /** The handle: three GPIO pin numbers, fixed once set up. */
  datatype Device = Device(clkPin: bv8, datPin: bv8, cePin: bv8)

  /**
   * The numeric value of a byte read as two BCD digits, tens in the high
   * nibble (at most 15 * 10 + 15 = 165, so eight bits never overflow).
   */
  function BcdValue(x: bv8): bv8 {
    (x >> 4) * 10 + (x & 0x0F)
  }

  /** The bits of a register byte that width tag `length` treats as decimal data (0 <= length <= 8). */
  function TagMask(length: bv8): bv8
    requires length <= 8
  {
    if length == 0 then 0x00
    else if length == 1 then 0x01
    else if length == 2 then 0x03
    else if length == 3 then 0x07
    else if length == 4 then 0x0F
    else if length == 5 then 0x1F
    else if length == 6 then 0x3F
    else if length == 7 then 0x7F
    else 0xFF
  }

  /** The largest decimal value whose BCD encoding survives TagMask(length). */
  function TagMax(length: bv8): bv8
    requires length <= 8
  {
    if length == 0 then 0
    else if length == 1 then 1
    else if length == 2 then 3
    else if length == 3 then 7
    else if length == 4 then 9
    else if length == 5 then 19
    else if length == 6 then 39
    else if length == 7 then 79
    else 99
  }

  /** ds1302_encode: tens digit into the high nibble, ones digit into the low one. */
  function Encode(value: bv8): bv8 {
    ((value / 10) << 4) | (value % 10)
  }

  /** For every value the driver's range checks let through, the two nibbles are the two decimal digits. */
  lemma EncodeDigits(value: bv8)
    requires value <= 99
    ensures Encode(value) >> 4 == value / 10 && Encode(value) & 0x0F == value % 10
  {
  }

  /**
   * Above 99 the C expression is computed in `int` and cut to eight bits on
   * return: Encode is that computation done in sixteen bits (wide enough for
   * 25 * 16 + 9) with the low eight kept.
   */
  lemma EncodeTruncates(value: bv8)
    ensures Encode(value) as bv16 == (((value as bv16 / 10) << 4) | (value as bv16 % 10)) & 0xFF
  {
  }

  /**
   * ds1302_decode: the ones nibble, corrected by the width tag `length`; a
   * tag above 8 is the fatal error of the default branch. What the valid
   * tags compute is DecodeValue.
   */
  function Decode(length: bv8, value: bv8): (r: Result<bv8>)
    ensures r.Err? <==> length > 8
    ensures length > 8 ==> r == Err(LengthError(length))
  {
    var decoded := value & 0x0F;
    if length == 0 then Ok(0)
    else if length == 1 then Ok(decoded & 0x01)
    else if length == 2 then Ok(decoded & 0x03)
    else if length == 3 then Ok(decoded & 0x07)
    else if length == 4 then Ok(decoded)
    else if length == 5 then Ok(decoded + ((value & 0x10) >> 4) * 10)
    else if length == 6 then Ok(decoded + ((value & 0x30) >> 4) * 10)
    else if length == 7 then Ok(decoded + ((value & 0x70) >> 4) * 10)
    else if length == 8 then Ok(decoded + ((value & 0xF0) >> 4) * 10)
    else Err(LengthError(length))
  }

  /** Tags 0 to 4 keep only ones bits, so the result is those bits. */
  lemma DecodeOnes(length: bv8, value: bv8)
    requires length <= 4
    ensures Decode(length, value) == Ok(BcdValue(value & TagMask(length)))
  {
  }

  /** Tags 5 to 8 add the tens bits they keep, weighted by ten. */
  lemma DecodeTens(length: bv8, value: bv8)
    requires 5 <= length <= 8
    ensures Decode(length, value) == Ok(BcdValue(value & TagMask(length)))
  {
  }

  /** Whatever the valid tag, the decoded value is the BCD value of the bits TagMask keeps. */
  lemma DecodeValue(length: bv8, value: bv8)
    requires length <= 8
    ensures Decode(length, value) == Ok(BcdValue(value & TagMask(length)))
  {
    if length <= 4 {
      DecodeOnes(length, value);
    } else {
      DecodeTens(length, value);
    }
  }

  /** ds1302_check_range: the value itself when it lies in [min, max], the fatal error otherwise. */
  function CheckRange(min: bv8, max: bv8, value: bv8): (r: Result<bv8>)
    ensures r.Ok? <==> min <= value <= max
    ensures r.Ok? ==> r.value == value
    ensures r.Err? ==> r.error == RangeError(min, max, value)
  {
    if value < min then Err(RangeError(min, max, value))
    else if value > max then Err(RangeError(min, max, value))
    else Ok(value)
  }

  /** A pin number the target board can drive. */
  predicate ValidPin(pin: bv8) {
    2 <= pin <= 27
  }

  /**
   * ds1302_check_device: the three pins are checked in the order clock, data,
   * chip-enable; the first one out of [2, 27] is the reported error.
   */
  function CheckDevice(device: Device): (r: Result<Device>)
    ensures r.Ok? <==> ValidPin(device.clkPin) && ValidPin(device.datPin) && ValidPin(device.cePin)
    ensures r.Ok? ==> r.value == device
    ensures !ValidPin(device.clkPin) ==> r == Err(RangeError(2, 27, device.clkPin))
    ensures ValidPin(device.clkPin) && !ValidPin(device.datPin) ==> r == Err(RangeError(2, 27, device.datPin))
    ensures ValidPin(device.clkPin) && ValidPin(device.datPin) && !ValidPin(device.cePin) ==>
              r == Err(RangeError(2, 27, device.cePin))
  {
    var clk := CheckRange(2, 27, device.clkPin);
    if clk.Err? then Err(clk.error)
    else
      var dat := CheckRange(2, 27, device.datPin);
      if dat.Err? then Err(dat.error)
      else
        var ce := CheckRange(2, 27, device.cePin);
        if ce.Err? then Err(ce.error)
        else Ok(device)
  }

  /** The three examples of the codec's documentation. */
  lemma EncodeExamples()
    ensures Encode(0) == 0x00 && Encode(45) == 0x45 && Encode(99) == 0x99
  {
  }

  /**
   * Decoding an encoded value gives it back exactly when its tens digit fits
   * the tag: 0..99 for tag 8, 0..79 for 7, 0..39 for 6, 0..19 for 5, 0..9 for
   * 4, 0..7 for 3, 0..3 for 2, 0..1 for 1 and only 0 for tag 0.
   */
  lemma DecodeEncode(length: bv8, v: bv8)
    requires length <= 8 && v <= 99
    ensures Decode(length, Encode(v)) == Ok(v) <==> v <= TagMax(length)
  {
    EncodeDigits(v);
    DecodeValue(length, Encode(v));
  }

  /** Bits outside the tag's mask, such as a flag sharing the byte, never change the decoded value. */
  lemma DecodeIgnoresUnmasked(length: bv8, value: bv8, other: bv8)
    requires length <= 8
    requires other & TagMask(length) == 0
    ensures Decode(length, value | other) == Decode(length, value)
  {
    assert (value | other) & TagMask(length) == value & TagMask(length);
    DecodeValue(length, value | other);
    DecodeValue(length, value);
  }

  /** In particular the clock-halt flag (bit 7) never changes the seconds decoded with tag 7. */
  lemma DecodeSecondsIgnoresHalt(x: bv8)
    ensures Decode(7, 0x80 | x) == Decode(7, x)
  {
    DecodeIgnoresUnmasked(7, x, 0x80);
  }
}
