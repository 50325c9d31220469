/**
 The TLV5618 two-channel 12-bit SPI DAC driver. A `Dac` holds the chip-select pin and the control
 bits (speed and power) that go into every command word; every operation returns the events it
 causes on the pins and the SPI bus, in order.

 Each command word is two bytes, high byte first: bit 7 and bit 4 of the first byte select what the
 chip does with the word, bits 6 and 5 are the speed and power bits, and its low four bits with the
 second byte are the 12-bit value. The chip takes the word in when chip select rises again.
 */
module Tlv5618 {
  import opened Bits

  // Control modes that may be passed to the constructor.
  const SpeedSlow: uint8 := 0x00
  const SpeedFast: uint8 := 0x40
  const PowerNormal: uint8 := 0x00
  const PowerDown: uint8 := 0x20

  // Raw commands: bits 7 and 4 of the first byte say where the word's value goes.
  /** The value loads output B, and the double buffer keeps a copy. */
  const CmdWriteBAndBuffer: uint8 := 0x00
  /** The value is staged in the double buffer; neither output moves. */
  const CmdWriteBuffer: uint8 := 0x10
  /** The value loads output A while output B takes over the staged buffer. */
  const CmdWriteAUpdateB: uint8 := 0x80

  /** The driver object: the chip-select pin and the control bits. */
  datatype Dac = Dac(csPin: uint8, control: uint8)

  /** A control byte one speed mode `|` one power mode can make (see `ModeCombinations`). */
  predicate ControlFlags(control: uint8)
  {
    control == 0x00 || control == 0x20 || control == 0x40 || control == 0x60
  }

  /** One of the three raw commands. */
  predicate Command(cmd: uint8)
  {
    cmd == CmdWriteBAndBuffer || cmd == CmdWriteBuffer || cmd == CmdWriteAUpdateB
  }

  /** The one-argument constructor: slow speed and normal power, which set no control bit. */
  function NewDac(csPin: uint8): (d: Dac)
    ensures d.csPin == csPin && d.control == 0 && ControlFlags(d.control)
  {
    Dac(csPin, ToUint8(Or(SpeedSlow, PowerNormal)))
  }

  /**
   The two-argument constructor: the caller's control byte, taken as given. Nothing checks that it
   is one speed mode `|` one power mode, so stray bits reach every command word.
   */
  function NewDacWithControl(csPin: uint8, control: uint8): (d: Dac)
    ensures d.csPin == csPin && d.control == control
  {
    Dac(csPin, control)
  }

  /**
   What the driver does outside the CPU: bring up the SPI peripheral (bit order, mode and clock
   included), drive a digital pin high or low, move one byte over SPI, or mask (`cli`) and unmask
   (`sei`) interrupts.
   */
  datatype SpiEvent = SpiInit | PinWrite(pin: uint8, high: bool) | Transfer(data: uint8) | Interrupts(enabled: bool)

  /** The first byte of a command word: bits 8..11 of the value, the command and the control bits. */
  function CommandByte(control: uint8, cmd: uint8, value: uint16): uint8
  {
    ToUint8(Or(Or(Shr(And(value, 0x0F00), 8), cmd), control))
  }

  /** The second byte of a command word: bits 0..7 of the value. */
  function DataByte(value: uint16): uint8
  {
    ToUint8(And(value, 0xFF))
  }

  /** `begin`: bring up SPI, make the chip-select pin an output and drive it high (deselected). */
  function Begin(d: Dac): (events: seq<SpiEvent>)
    ensures |events| == 2 && events[0] == SpiInit
    ensures events[|events| - 1] == PinWrite(d.csPin, true)
  {
    [SpiInit, PinWrite(d.csPin, true)]
  }

  /** `select`: chip select is active low, so a non-zero argument drives the pin low. */
  function Select(d: Dac, b: int): (events: seq<SpiEvent>)
    ensures |events| == 1 && events[0].PinWrite? && events[0].pin == d.csPin
    ensures events[0].high <==> b == 0
  {
    [PinWrite(d.csPin, b == 0)]
  }

  /**
   `write_data_no_cs`: the two bytes of one command word, with chip select left alone. With a
   control byte made of the speed and power modes and one of the raw commands, the chip reads the
   value modulo 2^12, the action the command names, and the speed and power bits.
   */
  function WriteDataNoCs(d: Dac, cmd: uint8, value: uint16): (events: seq<SpiEvent>)
    ensures |events| == 2 && events[0].Transfer? && events[1].Transfer?
    ensures ControlFlags(d.control) && Command(cmd) ==>
              && WordValue(events[0].data, events[1].data) == value % 4096
              && WordAction(events[0].data) == CommandAction(cmd)
              && events[0].data / 32 % 4 == d.control / 32
  {
    var events := [Transfer(CommandByte(d.control, cmd, value)), Transfer(DataByte(value))];
    assert ControlFlags(d.control) && Command(cmd) ==>
             && WordValue(events[0].data, events[1].data) == value % 4096
             && WordAction(events[0].data) == CommandAction(cmd)
             && events[0].data / 32 % 4 == d.control / 32 by {
      if ControlFlags(d.control) && Command(cmd) {
        CommandWordDecodes(d.control, cmd, value);
      }
    }
    events
  }

  /** `write_data`: one command word framed by chip select going low and then high again. */
  function WriteData(d: Dac, cmd: uint8, value: uint16): (events: seq<SpiEvent>)
    ensures |events| == 4
    ensures events[0] == PinWrite(d.csPin, false) && events[3] == PinWrite(d.csPin, true)
    ensures events[1..3] == WriteDataNoCs(d, cmd, value)
  {
    [PinWrite(d.csPin, false), Transfer(CommandByte(d.control, cmd, value)), Transfer(DataByte(value)),
     PinWrite(d.csPin, true)]
  }

  /**
   `write_fast`: the same word, moved through the SPI data register with interrupts masked for the
   two bytes and no settling delay.
   */
  function WriteFast(d: Dac, cmd: uint8, value: uint16): (events: seq<SpiEvent>)
    ensures |events| == 6
    ensures events[0] == PinWrite(d.csPin, false) && events[5] == PinWrite(d.csPin, true)
    ensures events[1] == Interrupts(false) && events[4] == Interrupts(true)
    ensures events[2..4] == WriteDataNoCs(d, cmd, value)
  {
    [PinWrite(d.csPin, false), Interrupts(false),
     Transfer(CommandByte(d.control, cmd, value)), Transfer(DataByte(value)),
     Interrupts(true), PinWrite(d.csPin, true)]
  }

  /**
   `write(valueA, valueB)` as the source has it: `valueA` goes to the buffer, then `valueB` is
   written with the command that loads channel A and moves the buffer to channel B.
   */
  function Write(d: Dac, valueA: uint16, valueB: uint16): (events: seq<SpiEvent>)
    ensures |events| == 8
    ensures events[0] == events[4] == PinWrite(d.csPin, false)
    ensures events[3] == events[7] == PinWrite(d.csPin, true)
    ensures events == WriteData(d, CmdWriteBuffer, valueA) + WriteData(d, CmdWriteAUpdateB, valueB)
  {
    [PinWrite(d.csPin, false),
     Transfer(CommandByte(d.control, CmdWriteBuffer, valueA)), Transfer(DataByte(valueA)),
     PinWrite(d.csPin, true),
     PinWrite(d.csPin, false),
     Transfer(CommandByte(d.control, CmdWriteAUpdateB, valueB)), Transfer(DataByte(valueB)),
     PinWrite(d.csPin, true)]
  }

  /**
   `write(valueA, valueB)` with the two values in the order its parameter names call for: `valueB`
   is staged in the buffer, then `valueA` goes to channel A as the buffer moves to channel B.
   */
  function WriteChannels(d: Dac, valueA: uint16, valueB: uint16): (events: seq<SpiEvent>)
    ensures |events| == 8
    ensures events[0] == events[4] == PinWrite(d.csPin, false)
    ensures events[3] == events[7] == PinWrite(d.csPin, true)
  {
    WriteData(d, CmdWriteBuffer, valueB) + WriteData(d, CmdWriteAUpdateB, valueA)
  }

  // ---------------------------------------------------------------------------------------------
  // How the chip reads a command word.

  /** The 12-bit value of a command word. */
  function WordValue(high: uint8, low: uint8): nat
  {
    high % 16 * 256 + low
  }

  /** What the chip does with a word, chosen by bit 7 and bit 4 of its first byte. */
  datatype Action = LoadBAndBuffer | LoadBuffer | LoadAFromWordAndBFromBuffer | Reserved

  /** The action bits of a word's first byte. */
  function WordAction(high: uint8): Action
  {
    var r1, r0 := high / 128 % 2, high / 16 % 2;
    if r1 == 0 && r0 == 0 then LoadBAndBuffer
    else if r1 == 0 then LoadBuffer
    else if r0 == 0 then LoadAFromWordAndBFromBuffer
    else Reserved
  }

  /** The action each raw command asks for, as the header's comments describe the commands. */
  function CommandAction(cmd: uint8): Action
  {
    if cmd == CmdWriteBAndBuffer then LoadBAndBuffer
    else if cmd == CmdWriteBuffer then LoadBuffer
    else if cmd == CmdWriteAUpdateB then LoadAFromWordAndBFromBuffer
    else Reserved
  }

  /** The chip: whether it is selected, the bytes shifted in since, its buffer and its two outputs. */
  datatype Chip = Chip(selected: bool, shifted: seq<uint8>, buffer: nat, outA: nat, outB: nat, modeBits: nat)

  /** The chip once a word has been taken in, or a select has ended without one. */
  function Idle(chip: Chip): Chip
  {
    chip.(selected := false, shifted := [])
  }

  /** The chip acting on a complete word. */
  function Latch(chip: Chip, high: uint8, low: uint8): Chip
  {
    var value := WordValue(high, low);
    var c := chip.(modeBits := high / 32 % 4);
    match WordAction(high)
    case LoadBAndBuffer => c.(outB := value, buffer := value)
    case LoadBuffer => c.(buffer := value)
    case LoadAFromWordAndBFromBuffer => c.(outA := value, outB := c.buffer)
    case Reserved => c
  }

  /** The chip's response to one event: it watches its own chip-select pin and the SPI bytes. */
  function ChipStep(pin: uint8, chip: Chip, e: SpiEvent): Chip
  {
    match e
    case SpiInit => chip
    case PinWrite(p, high) =>
      if p != pin then chip
      else if !high then chip.(selected := true, shifted := [])
      else if chip.selected && |chip.shifted| == 2 then Latch(Idle(chip), chip.shifted[0], chip.shifted[1])
      else Idle(chip)
    case Transfer(data) =>
      if chip.selected then chip.(shifted := chip.shifted + [data]) else chip
    case Interrupts(_) => chip
  }

  /** The chip's state after a sequence of events. */
  function ChipRun(pin: uint8, chip: Chip, events: seq<SpiEvent>): Chip
    decreases |events|
  {
    if |events| == 0 then chip else ChipRun(pin, ChipStep(pin, chip, events[0]), events[1..])
  }

  // ---------------------------------------------------------------------------------------------
  // The command word, bit by bit.

  /** Bits 8..11 of the value, shifted down: the driver's `(value & 0x0F00) >> 8`. */
  lemma HighNibble(value: nat)
    ensures Shr(And(value, 0x0F00), 8) == value / 256 % 16
  {
    SmallPowers();
    FieldOfMask(value, 8, 4);
    assert Shl(Pow2(4) - 1, 8) == 0x0F00;
    var n := value / 256 % 16;
    assert And(value, 0x0F00) == n * 256;
    DivModUnique(n * 256, 256, n, 0);
  }

  /** A value modulo 2^12 is its bits 8..11 above its low byte. */
  lemma TwelveBits(value: nat)
    ensures value / 256 % 16 * 256 + value % 256 == value % 4096
  {
    var q, low := value / 4096, value % 4096;
    DivModSplit(value, 4096);
    var h, l := low / 256, low % 256;
    DivModSplit(low, 256);
    DivModUnique(value, 256, 16 * q + h, l);
    DivModUnique(16 * q + h, 16, q, h);
  }

  /** A speed mode `|` a power mode is one of the control bytes, and each control byte is one of these. */
  lemma ModeCombinations(control: uint8)
    ensures ControlFlags(control) <==>
              || control == ToUint8(Or(SpeedSlow, PowerNormal)) || control == ToUint8(Or(SpeedSlow, PowerDown))
              || control == ToUint8(Or(SpeedFast, PowerNormal)) || control == ToUint8(Or(SpeedFast, PowerDown))
  {
    SmallPowers();
    OrDisjoint(PowerDown, SpeedFast, 6);
  }

  /** `|` with a value that has no bit below bit 4 keeps the low nibble and combines the rest. */
  lemma OrAboveNibble(x: nat, c: nat)
    requires c % 16 == 0
    ensures Or(x, c) == 16 * Or(x / 16, c / 16) + x % 16
  {
    SmallPowers();
    OrMod(x, c, 4);
    OrDiv(x, c, 4);
    DivModSplit(Or(x, c), 16);
  }

  /** The command's and the control's nibbles share no bit. */
  lemma NibblesDisjoint(a: nat, b: nat)
    requires a == 0 || a == 1 || a == 8
    requires b == 0 || b == 2 || b == 4 || b == 6
    ensures Or(a, b) == a + b
  {
    SmallPowers();
    if a < 2 {
      OrDisjoint(a, b, 1);
    } else {
      OrDisjoint(b, a, 3);
    }
  }

  /**
   With control bits from the speed and power modes and one of the raw commands, the three parts
   of the first byte occupy different bits, so the driver's `|` is a sum.
   */
  lemma CommandByteLayout(control: uint8, cmd: uint8, value: uint16)
    requires ControlFlags(control) && Command(cmd)
    ensures CommandByte(control, cmd, value) == value / 256 % 16 + cmd + control
  {
    CommandByteSum(control, cmd, value);
  }

  /** `CommandByteLayout` with the control and command values spelled out. */
  lemma CommandByteSum(control: uint8, cmd: uint8, value: uint16)
    requires control == 0 || control == 0x20 || control == 0x40 || control == 0x60
    requires cmd == 0 || cmd == 0x10 || cmd == 0x80
    ensures CommandByte(control, cmd, value) == value / 256 % 16 + cmd + control
  {
    SmallPowers();
    var n := value / 256 % 16;
    HighNibble(value);
    OrDisjoint(n, cmd, 4);
    var x := n + cmd;
    assert Or(Shr(And(value, 0x0F00), 8), cmd) == x;
    DivModUnique(x, 16, cmd / 16, n);
    OrAboveNibble(x, control);
    NibblesDisjoint(cmd / 16, control / 16);
    var y := n + cmd + control;
    assert Or(x, control) == y;
    ModBelow(y, 256);
  }

  /**
   The upper nibble of the first byte is `cmd | control` and the lower nibble is bits 8..11 of the
   value: the command and control bits never disturb the value bits, and the command can be read
   back from the first byte once the control bits are known.
   */
  lemma CommandNibbles(control: uint8, cmd: uint8, value: uint16)
    requires ControlFlags(control) && Command(cmd)
    ensures var high := CommandByte(control, cmd, value);
            && And(high, 0xF0) == Or(cmd, control)
            && And(high, 0x0F) == value / 256 % 16
            && And(high, 0xF0) - control == cmd
  {
    var n := value / 256 % 16;
    CommandByteLayout(control, cmd, value);
    assert CommandByte(control, cmd, value) == n + cmd + control;
    SumNibbles(n, cmd, control);
  }

  /** The nibbles of a first byte laid out as the value's high nibble, the command and the control bits. */
  lemma SumNibbles(n: nat, cmd: uint8, control: uint8)
    requires n < 16
    requires control == 0 || control == 0x20 || control == 0x40 || control == 0x60
    requires cmd == 0 || cmd == 0x10 || cmd == 0x80
    ensures var high := n + cmd + control;
            And(high, 0xF0) == Or(cmd, control) == cmd + control && And(high, 0x0F) == n
  {
    ByteNibbles(n + cmd + control);
    CommandControlDisjoint(cmd, control);
    FirstByteFields(n, cmd, control);
  }

  /** The two nibbles of a byte, as masks. */
  lemma ByteNibbles(x: nat)
    ensures And(x, 0xF0) == x / 16 % 16 * 16
    ensures And(x, 0x0F) == x % 16
  {
    SmallPowers();
    FieldOfMask(x, 4, 4);
    assert Shl(Pow2(4) - 1, 4) == 0xF0;
    AndLowOnes(x, 4);
  }

  /** A raw command and a control byte share no bit. */
  lemma CommandControlDisjoint(cmd: uint8, control: uint8)
    requires control == 0 || control == 0x20 || control == 0x40 || control == 0x60
    requires cmd == 0 || cmd == 0x10 || cmd == 0x80
    ensures Or(cmd, control) == cmd + control
  {
    SmallPowers();
    if cmd < 0x80 {
      OrDisjoint(cmd, control, 5);
    } else {
      OrDisjoint(control, cmd, 7);
    }
  }

  /**
   The chip's reading of a word is the C expression `((high & 0x0F) << 8) | low`, and reducing a
   value modulo 2^12 is `value & 0xFFF`.
   */
  lemma WordValueMasks(high: uint8, low: uint8, value: uint16)
    ensures Or(Shl(And(high, 0x0F), 8), low) == WordValue(high, low)
    ensures And(value, 0xFFF) == value % 4096
  {
    SmallPowers();
    AndLowOnes(high, 4);
    DivModUnique(high % 16 * 256, 256, high % 16, 0);
    OrDisjoint(low, high % 16 * 256, 8);
    AndLowOnes(value, 12);
  }

  /** A value of 4096, which the header calls valid, is sent exactly as 0. */
  lemma FullScaleWrapsToZero(d: Dac, cmd: uint8)
    ensures WriteData(d, cmd, 4096) == WriteData(d, cmd, 0)
  {
    ValueTruncation(d, cmd, 4096);
  }

  /** The chip reads back the value modulo 2^12, the command's action and the control bits. */
  lemma CommandWordDecodes(control: uint8, cmd: uint8, value: uint16)
    requires ControlFlags(control) && Command(cmd)
    ensures var high := CommandByte(control, cmd, value);
            && WordValue(high, DataByte(value)) == value % 4096
            && WordAction(high) == CommandAction(cmd)
            && high / 32 % 4 == control / 32
  {
    CommandByteLayout(control, cmd, value);
    LaidOutWordDecodes(value / 256 % 16, cmd, control, value);
  }

  /** The second byte is the value's low byte. */
  lemma DataByteLow(value: uint16)
    ensures DataByte(value) == value % 256
  {
    SmallPowers();
    AndLowOnes(value, 8);
    ModBelow(value % 256, 256);
  }

  /** How the chip reads a first byte laid out as the value's high nibble, the command and the control bits. */
  lemma LaidOutWordDecodes(n: nat, cmd: uint8, control: uint8, value: uint16)
    requires n == value / 256 % 16
    requires control == 0 || control == 0x20 || control == 0x40 || control == 0x60
    requires cmd == 0 || cmd == 0x10 || cmd == 0x80
    ensures var high := n + cmd + control;
            && high < 0x100
            && WordValue(high, DataByte(value)) == value % 4096
            && WordAction(high) == CommandAction(cmd)
            && high / 32 % 4 == control / 32
  {
    var high := n + cmd + control;
    FirstByteFields(n, cmd, control);
    DataByteLow(value);
    TwelveBits(value);
    assert WordValue(high, DataByte(value)) == n * 256 + value % 256;
    assert WordAction(high) == CommandAction(cmd) by {
      if cmd == CmdWriteBAndBuffer {
        assert high / 128 % 2 == 0 && high / 16 % 2 == 0;
      } else if cmd == CmdWriteBuffer {
        assert high / 128 % 2 == 0 && high / 16 % 2 == 1;
      } else {
        assert high / 128 % 2 == 1 && high / 16 % 2 == 0;
      }
    }
  }

  /** The fields of a first byte laid out as the low nibble, the command and the control bits. */
  lemma FirstByteFields(n: nat, cmd: uint8, control: uint8)
    requires n < 16
    requires control == 0 || control == 0x20 || control == 0x40 || control == 0x60
    requires cmd == 0 || cmd == 0x10 || cmd == 0x80
    ensures var high := n + cmd + control;
            && high % 16 == n
            && high / 16 % 16 * 16 == cmd + control
            && high / 128 % 2 == cmd / 128
            && high / 16 % 2 == cmd / 16 % 2
            && high / 32 % 4 == control / 32
  {
    var k, m := cmd / 16, control / 32;
    assert cmd == 16 * k && control == 32 * m && k / 8 == cmd / 128;
    NibbleFields(n, k, m);
  }

  /** `FirstByteFields` with the command as 16 * k and the control bits as 32 * m. */
  lemma NibbleFields(n: nat, k: nat, m: nat)
    requires n < 16 && (k == 0 || k == 1 || k == 8) && m < 4
    ensures var high := n + 16 * k + 32 * m;
            && high % 16 == n
            && high / 16 % 16 == k + 2 * m
            && high / 128 % 2 == k / 8
            && high / 16 % 2 == k % 2
            && high / 32 % 4 == m
  {
    var high := n + 16 * k + 32 * m;
    DivModUnique(high, 16, k + 2 * m, n);
    ModBelow(k + 2 * m, 16);
    DivModUnique(k + 2 * m, 2, k / 2 + m, k % 2);
    DivModUnique(high, 32, k / 2 + m, n + 16 * (k % 2));
    DivModUnique(k / 2 + m, 4, k / 8, m);
    DivModUnique(high, 128, k / 8, n + 16 * (k % 8) + 32 * m);
    ModBelow(k / 8, 2);
  }

  /** The driver reads only the low twelve bits of a value, so 4096 is sent exactly as 0 is. */
  lemma ValueTruncation(d: Dac, cmd: uint8, value: uint16)
    ensures WriteData(d, cmd, value) == WriteData(d, cmd, value % 4096)
  {
    var r := value % 4096;
    HighNibble(value);
    HighNibble(r);
    DataByteLow(value);
    DataByteLow(r);
    TruncatedBytes(value);
    assert Shr(And(value, 0x0F00), 8) == Shr(And(r, 0x0F00), 8);
    assert CommandByte(d.control, cmd, value) == CommandByte(d.control, cmd, r);
    assert DataByte(value) == DataByte(r);
  }

  /** Reducing a value modulo 2^12 keeps bits 8..11 and the low byte. */
  lemma TruncatedBytes(value: nat)
    ensures value % 4096 / 256 % 16 == value / 256 % 16
    ensures value % 4096 % 256 == value % 256
  {
    var q, r := value / 4096, value % 4096;
    DivModSplit(value, 4096);
    DivModSplit(r, 256);
    DivModUnique(value, 256, 16 * q + r / 256, r % 256);
    DivModUnique(16 * q + r / 256, 16, q, r / 256);
    ModBelow(r / 256, 16);
  }

  /** `select(1)`, the word without chip select, then `select(0)` frame the word as `write_data` does. */
  lemma SelectFramesWord(d: Dac, b: int, cmd: uint8, value: uint16)
    requires b != 0
    ensures Select(d, b) + WriteDataNoCs(d, cmd, value) + Select(d, 0) == WriteData(d, cmd, value)
  {
  }

  // ---------------------------------------------------------------------------------------------
  // What the chip ends up holding.

  /** Running two event sequences one after the other is running their concatenation. */
  lemma {:induction false} ChipRunAppend(pin: uint8, chip: Chip, first: seq<SpiEvent>, second: seq<SpiEvent>)
    ensures ChipRun(pin, chip, first + second) == ChipRun(pin, ChipRun(pin, chip, first), second)
    decreases |first|
  {
    if |first| == 0 {
      assert first + second == second;
    } else {
      assert (first + second)[0] == first[0];
      assert (first + second)[1..] == first[1..] + second;
      ChipRunAppend(pin, ChipStep(pin, chip, first[0]), first[1..], second);
    }
  }

  /** A framed word is taken in whole when chip select rises, whatever the chip was doing before. */
  lemma FramedWordTakenIn(pin: uint8, high: uint8, low: uint8, chip: Chip)
    ensures ChipRun(pin, chip, [PinWrite(pin, false), Transfer(high), Transfer(low), PinWrite(pin, true)])
            == Latch(Idle(chip), high, low)
  {
    var events := [PinWrite(pin, false), Transfer(high), Transfer(low), PinWrite(pin, true)];
    var c1 := chip.(selected := true, shifted := []);
    var c2 := c1.(shifted := [high]);
    var c3 := c1.(shifted := [high, low]);
    assert ChipStep(pin, c1, events[1]) == c2 by {
      assert [] + [high] == [high];
    }
    assert ChipStep(pin, c2, events[2]) == c3 by {
      assert [high] + [low] == [high, low];
    }
    assert ChipRun(pin, chip, events) == ChipRun(pin, c1, events[1..]);
    assert ChipRun(pin, c1, events[1..]) == ChipRun(pin, c2, events[2..]);
    assert ChipRun(pin, c2, events[2..]) == ChipRun(pin, c3, events[3..]);
    assert ChipRun(pin, c3, events[3..]) == Latch(Idle(c3), high, low);
    assert Idle(c3) == Idle(chip);
  }

  /** The chip takes in the word `write_data` frames. */
  lemma WriteDataTakenIn(d: Dac, cmd: uint8, value: uint16, chip: Chip)
    ensures ChipRun(d.csPin, chip, WriteData(d, cmd, value))
            == Latch(Idle(chip), CommandByte(d.control, cmd, value), DataByte(value))
  {
    FramedWordTakenIn(d.csPin, CommandByte(d.control, cmd, value), DataByte(value), chip);
  }

  /** Masking interrupts is invisible to the chip: `write_fast` leaves it as `write_data` does. */
  lemma WriteFastLikeWriteData(d: Dac, cmd: uint8, value: uint16, chip: Chip)
    ensures ChipRun(d.csPin, chip, WriteFast(d, cmd, value)) == ChipRun(d.csPin, chip, WriteData(d, cmd, value))
  {
    var pin, high, low := d.csPin, CommandByte(d.control, cmd, value), DataByte(value);
    var fast := WriteFast(d, cmd, value);
    var c1 := chip.(selected := true, shifted := []);
    var c2 := c1.(shifted := [high]);
    var c3 := c1.(shifted := [high, low]);
    assert ChipStep(pin, c1, fast[2]) == c2 by {
      assert [] + [high] == [high];
    }
    assert ChipStep(pin, c2, fast[3]) == c3 by {
      assert [high] + [low] == [high, low];
    }
    assert ChipRun(pin, chip, fast) == ChipRun(pin, c1, fast[1..]);
    assert ChipRun(pin, c1, fast[1..]) == ChipRun(pin, c1, fast[2..]);
    assert ChipRun(pin, c1, fast[2..]) == ChipRun(pin, c2, fast[3..]);
    assert ChipRun(pin, c2, fast[3..]) == ChipRun(pin, c3, fast[4..]);
    assert ChipRun(pin, c3, fast[4..]) == ChipRun(pin, c3, fast[5..]);
    assert ChipRun(pin, c3, fast[5..]) == Latch(Idle(c3), high, low);
    assert Idle(c3) == Idle(chip);
    WriteDataTakenIn(d, cmd, value, chip);
  }

  /**
   One `write_data` with a raw command: the chip ends deselected with the control's speed and power
   bits, and the value modulo 2^12 lands where the command says; everything else is kept.
   */
  lemma WriteDataEffect(d: Dac, cmd: uint8, value: uint16, chip: Chip)
    requires ControlFlags(d.control) && Command(cmd)
    ensures var after := ChipRun(d.csPin, chip, WriteData(d, cmd, value));
            && !after.selected && after.shifted == [] && after.modeBits == d.control / 32
            && (cmd == CmdWriteBAndBuffer ==>
                  after.outA == chip.outA && after.outB == value % 4096 && after.buffer == value % 4096)
            && (cmd == CmdWriteBuffer ==>
                  after.outA == chip.outA && after.outB == chip.outB && after.buffer == value % 4096)
            && (cmd == CmdWriteAUpdateB ==>
                  after.outA == value % 4096 && after.outB == chip.buffer && after.buffer == chip.buffer)
  {
    WriteDataTakenIn(d, cmd, value, chip);
    CommandWordDecodes(d.control, cmd, value);
  }

  /**
   `write(valueA, valueB)` as written leaves channel A at `valueB` and channel B at `valueA`
   (each modulo 2^12), with `valueA` also left in the buffer.
   */
  lemma WriteSwapsChannels(d: Dac, valueA: uint16, valueB: uint16, chip: Chip)
    requires ControlFlags(d.control)
    ensures var after := ChipRun(d.csPin, chip, Write(d, valueA, valueB));
            && after.outA == valueB % 4096 && after.outB == valueA % 4096
            && after.buffer == valueA % 4096 && !after.selected
  {
    var first := WriteData(d, CmdWriteBuffer, valueA);
    var second := WriteData(d, CmdWriteAUpdateB, valueB);
    ChipRunAppend(d.csPin, chip, first, second);
    WriteDataEffect(d, CmdWriteBuffer, valueA, chip);
    WriteDataEffect(d, CmdWriteAUpdateB, valueB, ChipRun(d.csPin, chip, first));
  }

  /** The corrected `write(valueA, valueB)` leaves channel A at `valueA` and channel B at `valueB`. */
  lemma WriteChannelsLoadsBoth(d: Dac, valueA: uint16, valueB: uint16, chip: Chip)
    requires ControlFlags(d.control)
    ensures var after := ChipRun(d.csPin, chip, WriteChannels(d, valueA, valueB));
            && after.outA == valueA % 4096 && after.outB == valueB % 4096
            && after.buffer == valueB % 4096 && !after.selected
  {
    var first := WriteData(d, CmdWriteBuffer, valueB);
    var second := WriteData(d, CmdWriteAUpdateB, valueA);
    ChipRunAppend(d.csPin, chip, first, second);
    WriteDataEffect(d, CmdWriteBuffer, valueB, chip);
    WriteDataEffect(d, CmdWriteAUpdateB, valueA, ChipRun(d.csPin, chip, first));
  }

  /** After `begin` the chip is deselected, whatever its state before. */
  lemma BeginDeselects(d: Dac, chip: Chip)
    ensures !ChipRun(d.csPin, chip, Begin(d)).selected
  {
    var pin := d.csPin;
    var after := ChipStep(pin, chip, PinWrite(pin, true));
    assert !after.selected by {
      if chip.selected && |chip.shifted| == 2 {
        var c := Idle(chip);
        assert after == Latch(c, chip.shifted[0], chip.shifted[1]);
      }
    }
    assert ChipRun(pin, chip, Begin(d)) == ChipRun(pin, chip, [PinWrite(pin, true)]);
    assert ChipRun(pin, chip, [PinWrite(pin, true)]) == ChipRun(pin, after, []);
  }
}
