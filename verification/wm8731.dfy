/**
 The WM8731 codec control interface. The codec's registers are write-only, so the driver keeps a
 shadow copy of registers 0..9 and every write sends one two-byte I2C frame: the register index in
 the upper seven bits of the first byte and a nine-bit value in the rest.

 The driver's static variables become an immutable `Codec` record, and every operation returns the
 next record together with the bus events it caused.
 */
module Wm8731 {
  import opened Bits
  import opened Wm8731Registers

  /** The shadow copy of registers 0..9, each an `unsigned short`. */
  type Shadow = s: seq<uint16> | |s| == NRegisters witness [0, 0, 0, 0, 0, 0, 0, 0, 0, 0]

  /** The driver's static state: the bus-initialized flag, the device address and the shadow. */
  datatype Codec = Codec(initialized: bool, address: uint8, registers: Shadow)

  /** The state at program start: static storage is zero and the address is the CSB-low one. */
  const Startup: Codec := Codec(false, DeviceAddress(CsbLow), [0, 0, 0, 0, 0, 0, 0, 0, 0, 0])

  /**
   What the driver does on the I2C bus: the one-time bus-master initialization, or one
   transmission to `address` carrying the two bytes `first` and `second`.
   */
  datatype I2cEvent = BusInit | Frame(address: uint8, first: uint8, second: uint8)

  /** The state after an operation and the bus events the operation caused, in order. */
  datatype CodecStep = CodecStep(next: Codec, bus: seq<I2cEvent>)

  /** The driver's `get`: a read of the shadow. The source does not check the index. */
  function Get(c: Codec, reg: uint8): uint16
    requires reg < NRegisters
  {
    c.registers[reg]
  }

  /**
   The two bytes `set` sends for a register index and value: the index shifted left by one with
   bit 8 of the value below it, then the low byte of the value. `DriverFrameBytes` shows this is
   the driver's mask-and-shift expression.
   */
  function EncodeFrame(reg: uint8, value: uint16): (uint8, uint8)
  {
    ((2 * reg + value / 256 % 2) % 256, value % 256)
  }

  /** How the codec reads a frame: a 7-bit register address and a 9-bit value. */
  function DecodeFrame(first: uint8, second: uint8): (uint8, uint16)
  {
    (first / 2, first % 2 * 256 + second)
  }

  /** The frame bytes are the `unsigned char` results of the driver's `&`, `|` and shift expression. */
  lemma DriverFrameBytes(reg: uint8, value: uint16)
    ensures EncodeFrame(reg, value) == (ToUint8(Or(Shl(reg, 1), And(Shr(value, 8), 1))), ToUint8(And(value, 0xff)))
  {
    SmallPowers();
    AndLowOnes(Shr(value, 8), 1);
    assert And(Shr(value, 8), 1) == value / 256 % 2;
    OrDisjoint(And(Shr(value, 8), 1), Shl(reg, 1), 1);
    AndLowOnes(value, 8);
  }

  /** The arithmetic behind the frame layout: the first byte holds the index and bit 8 of the value. */
  lemma FrameArithmetic(reg: nat, value: nat)
    ensures var bit := value / 256 % 2;
            var first := (2 * reg + bit) % 256;
            first / 2 == reg % 128 && first % 2 == bit && value % 512 == bit * 256 + value % 256
  {
    var bit := value / 256 % 2;
    var t, r := reg / 128, reg % 128;
    DivModSplit(reg, 128);
    DivModUnique(2 * reg + bit, 256, t, 2 * r + bit);
    DivModUnique(2 * r + bit, 2, r, bit);
    var q, low := value / 512, value % 512;
    DivModSplit(value, 512);
    var h, l := low / 256, low % 256;
    DivModSplit(low, 256);
    DivModUnique(value, 256, 2 * q + h, l);
    DivModUnique(2 * q + h, 2, q, h);
  }

  /** Decoding a frame gives back the register index modulo 128 and the value modulo 512. */
  lemma FrameRoundTrip(reg: uint8, value: uint16)
    ensures var f := EncodeFrame(reg, value);
            DecodeFrame(f.0, f.1) == (reg % 128, value % 512)
  {
    FrameArithmetic(reg, value);
  }

  /** Two frames that decode alike are the same two bytes. */
  lemma DecodeFrameInjective(a0: uint8, a1: uint8, b0: uint8, b1: uint8)
    requires DecodeFrame(a0, a1) == DecodeFrame(b0, b1)
    ensures a0 == b0 && a1 == b1
  {
    var v := a0 % 2 * 256 + a1;
    DivModUnique(v, 256, a0 % 2, a1);
    DivModUnique(v, 256, b0 % 2, b1);
    DivModSplit(a0, 2);
    DivModSplit(b0, 2);
  }

  /** Every pair of bytes is the frame of the index and value it decodes to. */
  lemma FrameDecodeRoundTrip(first: uint8, second: uint8)
    ensures var d := DecodeFrame(first, second);
            EncodeFrame(d.0, d.1) == (first, second)
  {
    var d := DecodeFrame(first, second);
    var f := EncodeFrame(d.0, d.1);
    FrameRoundTrip(d.0, d.1);
    ModBelow(d.0, 128);
    ModBelow(d.1, 512);
    DecodeFrameInjective(f.0, f.1, first, second);
  }

  /** Bit 7 of the register index and bits 9..15 of the value never reach the wire. */
  lemma FrameDropsHighBits(reg: uint8, value: uint16)
    ensures EncodeFrame(reg, value) == EncodeFrame(reg % 128, value % 512)
  {
    assert reg % 128 % 128 == reg % 128 && value % 512 % 512 == value % 512;
    var f, g := EncodeFrame(reg, value), EncodeFrame(reg % 128, value % 512);
    FrameRoundTrip(reg, value);
    FrameRoundTrip(reg % 128, value % 512);
    DecodeFrameInjective(f.0, f.1, g.0, g.1);
  }

  /**
   The driver's `set`: store the value in the shadow when the index is below 10, then send one
   frame to the current address, whatever the index.
   */
  function Set(c: Codec, reg: uint8, value: uint16): (r: CodecStep)
    ensures reg < NRegisters ==> Get(r.next, reg) == value
    ensures forall k: uint8 :: k < NRegisters && k != reg ==> Get(r.next, k) == Get(c, k)
    ensures reg >= NRegisters ==> r.next == c
    ensures r.next.initialized == c.initialized && r.next.address == c.address
    ensures |r.bus| == 1 && r.bus[0].Frame? && r.bus[0].address == c.address
    ensures DecodeFrame(r.bus[0].first, r.bus[0].second) == (reg % 128, value % 512)
  {
    var next := if reg < NRegisters then c.(registers := c.registers[reg := value]) else c;
    var bytes := EncodeFrame(reg, value);
    FrameRoundTrip(reg, value);
    CodecStep(next, [Frame(c.address, bytes.0, bytes.1)])
  }

  /**
   `get` reads back what `set` stored: the entry just written holds the value (whenever the index
   is one the shadow keeps) and every other entry reads as before.
   */
  lemma GetAfterSet(c: Codec, reg: uint8, value: uint16, k: uint8)
    requires k < NRegisters
    ensures Get(Set(c, reg, value).next, k) == if k == reg then value else Get(c, k)
  {
  }

  /** A register index below 128 and a value below 512 reach the bus unchanged. */
  lemma SetFrameExact(c: Codec, reg: uint8, value: uint16)
    requires reg < 128 && value < 512
    ensures DecodeFrame(Set(c, reg, value).bus[0].first, Set(c, reg, value).bus[0].second) == (reg, value)
  {
    ModBelow(reg, 128);
    ModBelow(value, 512);
  }

  /** Writes to the digital path and reset registers are sent but never shadowed. */
  lemma DigitalAndResetNeverShadowed(c: Codec, value: uint16)
    ensures DigitalPath >= NRegisters && ResetRegister >= NRegisters
    ensures Set(c, DigitalPath, value).next == c
    ensures Set(c, ResetRegister, value).next == c
  {
  }

  /** The driver's `reset`: write 0 to the reset register. */
  function Reset(c: Codec): (r: CodecStep)
    ensures r.next == c
    ensures r.bus == [Frame(c.address, 0x1e, 0x00)]
  {
    Set(c, ResetRegister, 0)
  }

  /** The driver's `setActive`: write 1 to the control register. */
  function SetActive(c: Codec): (r: CodecStep)
    ensures Get(r.next, Control) == 1
    ensures forall k: uint8 :: k < NRegisters && k != Control ==> Get(r.next, k) == Get(c, k)
    ensures r.next.initialized == c.initialized && r.next.address == c.address
    ensures |r.bus| == 1 && r.bus[0].Frame? && r.bus[0].address == c.address
    ensures DecodeFrame(r.bus[0].first, r.bus[0].second) == (Control, 1)
  {
    SetFrameExact(c, Control, ControlActive);
    Set(c, Control, ControlActive)
  }

  /** The driver's `setInactive`: write 0 to the control register. */
  function SetInactive(c: Codec): (r: CodecStep)
    ensures Get(r.next, Control) == 0
    ensures forall k: uint8 :: k < NRegisters && k != Control ==> Get(r.next, k) == Get(c, k)
    ensures r.next.initialized == c.initialized && r.next.address == c.address
    ensures |r.bus| == 1 && r.bus[0].Frame? && r.bus[0].address == c.address
    ensures DecodeFrame(r.bus[0].first, r.bus[0].second) == (Control, 0)
  {
    SetFrameExact(c, Control, 0);
    Set(c, Control, 0)
  }

  /**
   A line-input register after a volume change: the low five bits are the new volume, bits 5..7
   (bit 7 is the mute flag) are kept, and nothing is left above bit 7, so the join bit is cleared.
   */
  predicate InputVolumeApplied(before: uint16, volume: uint8, after: uint16)
  {
    after % 32 == volume % 32 && after / 32 == before / 32 % 8
  }

  /**
   A headphone register after a volume change: the low six bits are the new volume, bits 6..7
   (bit 7 is the zero-cross flag) are kept, and the join bit is cleared.
   */
  predicate OutputVolumeApplied(before: uint16, volume: uint8, after: uint16)
  {
    after % 64 == volume % 64 && after / 64 == before / 64 % 4
  }

  /** A line-input register value with the volume field replaced, as `setInputVolume` computes it. */
  function InputVolumeByte(before: uint16, volume: uint8): uint8
  {
    before / 32 % 8 * 32 + volume % 32
  }

  /** A headphone register value with the volume field replaced, as `setOutputVolume` computes it. */
  function OutputVolumeByte(before: uint16, volume: uint8): uint8
  {
    before / 64 % 4 * 64 + volume % 64
  }

  /** The merged line-input value replaces the volume field and keeps bits 5..7. */
  lemma InputVolumeByteApplied(before: uint16, volume: uint8)
    ensures InputVolumeApplied(before, volume, InputVolumeByte(before, volume))
  {
    var h, v := before / 32 % 8, volume % 32;
    DivModUnique(h * 32 + v, 32, h, v);
  }

  /** The merged headphone value replaces the volume field and keeps bits 6..7. */
  lemma OutputVolumeByteApplied(before: uint16, volume: uint8)
    ensures OutputVolumeApplied(before, volume, OutputVolumeByte(before, volume))
  {
    var h, v := before / 64 % 4, volume % 64;
    DivModUnique(h * 64 + v, 64, h, v);
  }

  /** The read-modify-write expression of `setInputVolume`, built in an `unsigned char`, is `InputVolumeByte`. */
  lemma InputVolumeMerge(before: uint16, volume: uint8)
    ensures ToUint8(Or(And(before, LineInVolumeMask), LineInVolume(volume))) == InputVolumeByte(before, volume)
  {
    SmallPowers();
    var h, v := before / 32 % 8, volume % 32;
    LineInVolumeMaskKeeps(before);
    DivModUnique(h * 32, 32, h, 0);
    var low, high := LineInVolume(volume), And(before, LineInVolumeMask);
    assert low == v && high == h * 32;
    OrDisjoint(low, high, 5);
    assert Or(high, low) == h * 32 + v;
    ModBelow(h * 32 + v, 256);
    assert ToUint8(Or(high, low)) == h * 32 + v;
  }

  /** The read-modify-write expression of `setOutputVolume`, built in an `unsigned char`, is `OutputVolumeByte`. */
  lemma OutputVolumeMerge(before: uint16, volume: uint8)
    ensures ToUint8(Or(And(before, HeadphoneVolumeMask), HeadphoneVolume(volume))) == OutputVolumeByte(before, volume)
  {
    SmallPowers();
    var h, v := before / 64 % 4, volume % 64;
    HeadphoneVolumeMaskKeeps(before);
    DivModUnique(h * 64, 64, h, 0);
    var low, high := HeadphoneVolume(volume), And(before, HeadphoneVolumeMask);
    assert low == v && high == h * 64;
    OrDisjoint(low, high, 6);
    assert Or(high, low) == h * 64 + v;
    ModBelow(h * 64 + v, 256);
    assert ToUint8(Or(high, low)) == h * 64 + v;
  }

  /** The driver's `setInputVolume`: the same volume into both line-input registers. */
  function SetInputVolume(c: Codec, volume: uint8): (r: CodecStep)
    ensures InputVolumeApplied(Get(c, LLineIn), volume, Get(r.next, LLineIn))
    ensures InputVolumeApplied(Get(c, RLineIn), volume, Get(r.next, RLineIn))
    ensures forall k: uint8 :: RLineIn < k < NRegisters ==> Get(r.next, k) == Get(c, k)
    ensures r.next.initialized == c.initialized && r.next.address == c.address
    ensures |r.bus| == 2 && r.bus[0].Frame? && r.bus[1].Frame?
    ensures r.bus[0].address == c.address && r.bus[1].address == c.address
    ensures DecodeFrame(r.bus[0].first, r.bus[0].second) == (LLineIn, Get(r.next, LLineIn))
    ensures DecodeFrame(r.bus[1].first, r.bus[1].second) == (RLineIn, Get(r.next, RLineIn))
  {
    var left := InputVolumeByte(Get(c, LLineIn), volume);
    InputVolumeByteApplied(Get(c, LLineIn), volume);
    var s1 := Set(c, LLineIn, left);
    var right := InputVolumeByte(Get(s1.next, RLineIn), volume);
    InputVolumeByteApplied(Get(s1.next, RLineIn), volume);
    var s2 := Set(s1.next, RLineIn, right);
    SetFrameExact(c, LLineIn, left);
    SetFrameExact(s1.next, RLineIn, right);
    assert Get(s2.next, LLineIn) == left && Get(s2.next, RLineIn) == right;
    var bus := s1.bus + s2.bus;
    assert bus[0] == s1.bus[0] && bus[1] == s2.bus[0];
    CodecStep(s2.next, bus)
  }

  /** The driver's `setOutputVolume`: the same volume into both headphone registers. */
  function SetOutputVolume(c: Codec, volume: uint8): (r: CodecStep)
    ensures OutputVolumeApplied(Get(c, LHeadOut), volume, Get(r.next, LHeadOut))
    ensures OutputVolumeApplied(Get(c, RHeadOut), volume, Get(r.next, RHeadOut))
    ensures forall k: uint8 :: k < NRegisters && k != LHeadOut && k != RHeadOut ==> Get(r.next, k) == Get(c, k)
    ensures r.next.initialized == c.initialized && r.next.address == c.address
    ensures |r.bus| == 2 && r.bus[0].Frame? && r.bus[1].Frame?
    ensures r.bus[0].address == c.address && r.bus[1].address == c.address
    ensures DecodeFrame(r.bus[0].first, r.bus[0].second) == (LHeadOut, Get(r.next, LHeadOut))
    ensures DecodeFrame(r.bus[1].first, r.bus[1].second) == (RHeadOut, Get(r.next, RHeadOut))
  {
    var left := OutputVolumeByte(Get(c, LHeadOut), volume);
    OutputVolumeByteApplied(Get(c, LHeadOut), volume);
    var s1 := Set(c, LHeadOut, left);
    var right := OutputVolumeByte(Get(s1.next, RHeadOut), volume);
    OutputVolumeByteApplied(Get(s1.next, RHeadOut), volume);
    var s2 := Set(s1.next, RHeadOut, right);
    SetFrameExact(c, LHeadOut, left);
    SetFrameExact(s1.next, RHeadOut, right);
    assert Get(s2.next, LHeadOut) == left && Get(s2.next, RHeadOut) == right;
    var bus := s1.bus + s2.bus;
    assert bus[0] == s1.bus[0] && bus[1] == s2.bus[0];
    CodecStep(s2.next, bus)
  }

  /**
   Volumes 64 apart give the same headphone registers and the same frames: only six bits of the
   volume reach the register, although the header documents the volume as 0..127.
   */
  lemma OutputVolumeUsesSixBits(c: Codec, volume: uint8)
    requires volume < 0xc0
    ensures SetOutputVolume(c, volume + 64) == SetOutputVolume(c, volume)
  {
    DivModUnique(volume + 64, 64, volume / 64 + 1, volume % 64);
    var left := Get(c, LHeadOut);
    assert OutputVolumeByte(left, volume + 64) == OutputVolumeByte(left, volume);
    var s1 := Set(c, LHeadOut, OutputVolumeByte(left, volume));
    var right := Get(s1.next, RHeadOut);
    assert OutputVolumeByte(right, volume + 64) == OutputVolumeByte(right, volume);
  }

  /** The value register `k` holds after the writes, starting from `current`: the last write to it wins. */
  function LastWrite(writes: seq<(uint8, uint16)>, k: uint8, current: uint16): uint16
    decreases |writes|
  {
    if |writes| == 0 then current
    else LastWrite(writes[1..], k, if writes[0].0 == k then writes[0].1 else current)
  }

  /** A register no write names keeps its value. */
  lemma {:induction false} LastWriteUntouched(writes: seq<(uint8, uint16)>, k: uint8, current: uint16)
    requires forall j :: 0 <= j < |writes| ==> writes[j].0 != k
    ensures LastWrite(writes, k, current) == current
    decreases |writes|
  {
    if |writes| > 0 {
      assert writes[0].0 != k;
      LastWriteUntouched(writes[1..], k, current);
    }
  }

  /** A register named by one write only ends up with that write's value. */
  lemma {:induction false} LastWriteOnly(writes: seq<(uint8, uint16)>, i: nat, current: uint16)
    requires i < |writes|
    requires forall j :: 0 <= j < |writes| && j != i ==> writes[j].0 != writes[i].0
    ensures LastWrite(writes, writes[i].0, current) == writes[i].1
    decreases |writes|
  {
    var k := writes[i].0;
    if i == 0 {
      LastWriteUntouched(writes[1..], k, writes[0].1);
    } else {
      assert writes[0].0 != k;
      assert writes[1..][i - 1] == writes[i];
      LastWriteOnly(writes[1..], i - 1, current);
    }
  }

  /** `set` applied to each (register, value) pair in turn. */
  function SetAll(c: Codec, writes: seq<(uint8, uint16)>): (r: CodecStep)
    ensures r.next.initialized == c.initialized && r.next.address == c.address
    ensures |r.bus| == |writes|
    ensures forall i :: 0 <= i < |writes| ==>
              r.bus[i].Frame? && r.bus[i].address == c.address
              && DecodeFrame(r.bus[i].first, r.bus[i].second) == (writes[i].0 % 128, writes[i].1 % 512)
    ensures forall k: uint8 :: k < NRegisters ==> Get(r.next, k) == LastWrite(writes, k, Get(c, k))
    decreases |writes|
  {
    if |writes| == 0 then CodecStep(c, [])
    else
      var first := Set(c, writes[0].0, writes[0].1);
      var rest := SetAll(first.next, writes[1..]);
      CodecStep(rest.next, first.bus + rest.bus)
  }

  /**
   The (register, value) pairs `begin` writes, in order: `reset`, which is a write of 0 to the
   reset register, then nine `set` calls.
   */
  function BeginWrites(samplingFlags: uint8, interfaceFlags: uint8): seq<(uint8, uint16)>
  {
    [(ResetRegister, 0), (PowerDown, 0), (Interface, interfaceFlags), (LLineIn, LineInVolume(0)),
     (RLineIn, LineInVolume(0)), (LHeadOut, HeadphoneVolume(0)), (RHeadOut, HeadphoneVolume(0)),
     (AnalogPath, AnalogDacSelect as uint16), (DigitalPath, 0), (Sampling, samplingFlags)]
  }

  /**
   The driver's `begin` as defined in the source file: record the address, initialize the bus only
   the first time, then reset the codec and write its configuration, one frame per write. The
   codec is not made active.
   */
  function Begin(c: Codec, csb: Csb, samplingFlags: uint8, interfaceFlags: uint8): (r: CodecStep)
    ensures r.next.initialized && r.next.address == DeviceAddress(csb)
    ensures |r.bus| == if c.initialized then 10 else 11
    ensures forall i :: 0 <= i < |r.bus| ==> (r.bus[i].BusInit? <==> i == 0 && !c.initialized)
    ensures var frames := r.bus[|r.bus| - 10..];
            forall j :: 0 <= j < 10 ==>
              var f := frames[j];
              f.Frame? && f.address == DeviceAddress(csb)
              && var w := BeginWrites(samplingFlags, interfaceFlags)[j];
                 DecodeFrame(f.first, f.second) == (w.0 % 128, w.1 % 512)
    ensures forall k: uint8 :: k < NRegisters ==>
              Get(r.next, k) == LastWrite(BeginWrites(samplingFlags, interfaceFlags), k, Get(c, k))
  {
    var init := if c.initialized then [] else [BusInit];
    var s := SetAll(c.(address := DeviceAddress(csb), initialized := true), BeginWrites(samplingFlags, interfaceFlags));
    var bus := init + s.bus;
    assert bus[|bus| - 10..] == s.bus;
    CodecStep(s.next, bus)
  }

  /** Frames depend on the device address and the writes, not on the shadow or the flag. */
  lemma {:induction false} SetAllBusDependsOnlyOnAddress(c: Codec, d: Codec, writes: seq<(uint8, uint16)>)
    requires c.address == d.address
    ensures SetAll(c, writes).bus == SetAll(d, writes).bus
    decreases |writes|
  {
    if |writes| > 0 {
      SetAllBusDependsOnlyOnAddress(Set(c, writes[0].0, writes[0].1).next, Set(d, writes[0].0, writes[0].1).next, writes[1..]);
    }
  }

  /** Every write of `begin` names a register below 128 and a value below 512, so each frame decodes to exactly that write. */
  lemma BeginFramesExact(c: Codec, csb: Csb, samplingFlags: uint8, interfaceFlags: uint8)
    ensures var r := Begin(c, csb, samplingFlags, interfaceFlags);
            var frames := r.bus[|r.bus| - 10..];
            forall j :: 0 <= j < 10 ==>
              var f := frames[j];
              DecodeFrame(f.first, f.second) == BeginWrites(samplingFlags, interfaceFlags)[j]
  {
    var w := BeginWrites(samplingFlags, interfaceFlags);
    assert forall j :: 0 <= j < 10 ==> w[j].0 < 128 && w[j].1 < 256;
    forall j | 0 <= j < 10
      ensures w[j].0 % 128 == w[j].0 && w[j].1 % 512 == w[j].1
    {
      ModBelow(w[j].0, 128);
      ModBelow(w[j].1, 512);
    }
  }

  /**
   A second `begin` with the same arguments initializes nothing on the bus, sends the same ten
   frames again and leaves the same state: only the bus initialization is done once.
   */
  lemma BeginTwice(c: Codec, csb: Csb, samplingFlags: uint8, interfaceFlags: uint8)
    ensures var first := Begin(c, csb, samplingFlags, interfaceFlags);
            var second := Begin(first.next, csb, samplingFlags, interfaceFlags);
            && second.next == first.next
            && second.bus == first.bus[|first.bus| - 10..]
            && forall i :: 0 <= i < |second.bus| ==> !second.bus[i].BusInit?
  {
    var first := Begin(c, csb, samplingFlags, interfaceFlags);
    var second := Begin(first.next, csb, samplingFlags, interfaceFlags);
    BeginRegisters(c, csb, samplingFlags, interfaceFlags);
    BeginRegisters(first.next, csb, samplingFlags, interfaceFlags);
    var w := BeginWrites(samplingFlags, interfaceFlags);
    var a := c.(address := DeviceAddress(csb), initialized := true);
    var b := first.next.(address := DeviceAddress(csb), initialized := true);
    SetAllBusDependsOnlyOnAddress(a, b, w);
    assert first.bus[|first.bus| - 10..] == SetAll(a, w).bus;
  }

  /** `begin` never writes the control register, so it leaves an inactive codec inactive. */
  lemma BeginLeavesCodecInactive(c: Codec, csb: Csb, samplingFlags: uint8, interfaceFlags: uint8)
    ensures var r := Begin(c, csb, samplingFlags, interfaceFlags);
            && Get(r.next, Control) == Get(c, Control)
            && var frames := r.bus[|r.bus| - 10..];
               forall j :: 0 <= j < 10 ==>
                 var f := frames[j];
                 DecodeFrame(f.first, f.second).0 != Control
  {
    BeginWritesSkipControl(samplingFlags, interfaceFlags);
    BeginRegistersUntouched(c, csb, samplingFlags, interfaceFlags);
    BeginFramesExact(c, csb, samplingFlags, interfaceFlags);
  }

  /** None of the writes of `begin` names the control register. */
  lemma BeginWritesSkipControl(samplingFlags: uint8, interfaceFlags: uint8)
    ensures forall j :: 0 <= j < 10 ==> BeginWrites(samplingFlags, interfaceFlags)[j].0 != Control
  {
    var w := BeginWrites(samplingFlags, interfaceFlags);
    LastWriteUntouched(w, Control, 0);
  }

  /** After `begin` the four volume registers hold 0: the volume fields are set to 0 and the other bits cleared. */
  lemma BeginRegistersVolumes(c: Codec, csb: Csb, samplingFlags: uint8, interfaceFlags: uint8)
    ensures var r := Begin(c, csb, samplingFlags, interfaceFlags).next;
            Get(r, LLineIn) == 0 && Get(r, RLineIn) == 0 && Get(r, LHeadOut) == 0 && Get(r, RHeadOut) == 0
  {
    var w := BeginWrites(samplingFlags, interfaceFlags);
    LastWriteOnly(w, 3, Get(c, 0));
    LastWriteOnly(w, 4, Get(c, 1));
    LastWriteOnly(w, 5, Get(c, 2));
    LastWriteOnly(w, 6, Get(c, 3));
  }

  /** After `begin` the analog path selects the DAC, every module is powered and the caller's flags are stored. */
  lemma BeginRegistersConfiguration(c: Codec, csb: Csb, samplingFlags: uint8, interfaceFlags: uint8)
    ensures var r := Begin(c, csb, samplingFlags, interfaceFlags).next;
            Get(r, AnalogPath) == AnalogDacSelect as uint16 && Get(r, PowerDown) == 0
            && Get(r, Interface) == interfaceFlags && Get(r, Sampling) == samplingFlags
  {
    var w := BeginWrites(samplingFlags, interfaceFlags);
    LastWriteOnly(w, 7, Get(c, 4));
    LastWriteOnly(w, 1, Get(c, 6));
    LastWriteOnly(w, 2, Get(c, 7));
    LastWriteOnly(w, 9, Get(c, 8));
  }

  /** `begin` writes neither the unused register 5 nor the control register. */
  lemma BeginRegistersUntouched(c: Codec, csb: Csb, samplingFlags: uint8, interfaceFlags: uint8)
    ensures var r := Begin(c, csb, samplingFlags, interfaceFlags).next;
            Get(r, 5) == Get(c, 5) && Get(r, Control) == Get(c, Control)
  {
    var w := BeginWrites(samplingFlags, interfaceFlags);
    LastWriteUntouched(w, 5, Get(c, 5));
    LastWriteUntouched(w, 9, Get(c, 9));
  }

  /** The whole shadow after `begin`. */
  lemma BeginRegisters(c: Codec, csb: Csb, samplingFlags: uint8, interfaceFlags: uint8)
    ensures Begin(c, csb, samplingFlags, interfaceFlags).next.registers
         == [0, 0, 0, 0, AnalogDacSelect as uint16, Get(c, 5), 0, interfaceFlags, samplingFlags, Get(c, Control)]
  {
    BeginRegistersVolumes(c, csb, samplingFlags, interfaceFlags);
    BeginRegistersConfiguration(c, csb, samplingFlags, interfaceFlags);
    BeginRegistersUntouched(c, csb, samplingFlags, interfaceFlags);
  }

  /**
   `begin` from program start: the bus is initialized first, ten frames follow, and every shadow
   entry is known afterwards, the two `begin` does not write being still zero.
   */
  lemma BeginFromStartup(csb: Csb, samplingFlags: uint8, interfaceFlags: uint8)
    ensures var r := Begin(Startup, csb, samplingFlags, interfaceFlags);
            && |r.bus| == 11 && r.bus[0] == BusInit
            && r.next.address == DeviceAddress(csb)
            && r.next.registers == [0, 0, 0, 0, AnalogDacSelect as uint16, 0, 0, interfaceFlags, samplingFlags, 0]
  {
    BeginRegisters(Startup, csb, samplingFlags, interfaceFlags);
    assert Get(Startup, 5) == 0 && Get(Startup, Control) == 0;
  }
}
