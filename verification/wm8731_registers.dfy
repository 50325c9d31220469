/**
 The WM8731 codec's control-register map as the driver header declares it: the two bus addresses,
 the register indices, the single-bit flags and the field encoders that pack a small code into
 its place in a 9-bit register value.
 */
module Wm8731Registers {
  import opened Bits

  /** Level of the codec's CSB pin, which selects one of two bus addresses. */
  datatype Csb = CsbLow | CsbHigh

  /** The 7-bit I2C address for a CSB level: 0011010, with CSB as the last bit. */
  function DeviceAddress(csb: Csb): (address: uint8)
    ensures address < 0x80
    ensures address / 2 == 0x0D
    ensures address % 2 == 1 <==> csb == CsbHigh
  {
    match csb
    case CsbLow => 0x1a
    case CsbHigh => 0x1b
  }

  // Register indices. DigitalPath is 0x0a although the indices 0..9 leave 5 unused.
  const LLineIn: uint8 := 0x00
  const RLineIn: uint8 := 0x01
  const LHeadOut: uint8 := 0x02
  const RHeadOut: uint8 := 0x03
  const AnalogPath: uint8 := 0x04
  const DigitalPath: uint8 := 0x0a
  const PowerDown: uint8 := 0x06
  const Interface: uint8 := 0x07
  const Sampling: uint8 := 0x08
  const Control: uint8 := 0x09
  /** Writing 0 here resets the device. */
  const ResetRegister: uint8 := 0x0F

  /** Number of registers the driver keeps a shadow copy of (indices 0..9). */
  const NRegisters: nat := 10

  // Line-input registers (left and right share one layout).
  const LineInVolumeMask: uint8 := 0xe0
  const LineInMute: uint8 := 0x80
  const LineInBoth: uint16 := 0x100

  // Headphone-output registers (left and right share one layout).
  const HeadphoneVolumeMask: uint8 := 0xc0
  const HeadphoneZeroCross: uint8 := 0x80
  const HeadphoneBoth: uint16 := 0x100

  // Analog audio path.
  const AnalogMicBoost: uint8 := 0x01
  const AnalogMuteMic: uint8 := 0x02
  const AnalogInputSelect: uint8 := 0x04
  const AnalogBypass: uint8 := 0x08
  const AnalogDacSelect: uint8 := 0x10
  const AnalogSidetone: uint8 := 0x20

  // Digital audio path. Bit 0 disables the ADC high-pass filter when set; the name says so,
  // whatever the header's comment on the flag suggests.
  const DigitalAdcHighPassDisable: uint8 := 0x01
  const DigitalDacMute: uint8 := 0x08
  const DigitalHighPassOffset: uint8 := 0x10

  // Digital audio interface format.
  const InterfaceLrPhase: uint8 := 0x10
  const InterfaceLrSwap: uint8 := 0x20
  const InterfaceMaster: uint8 := 0x40
  const InterfaceBitClockInvert: uint8 := 0x80

  /** Codes for the interface format field. */
  const FormatRightJustified: nat := 0
  const FormatLeftJustified: nat := 1
  const FormatI2s: nat := 2
  const FormatDsp: nat := 3

  // Sampling control.
  const SamplingUsbMode: uint8 := 0x01
  const SamplingBaseOversampling: uint8 := 0x02
  const SamplingCoreClockDiv2: uint8 := 0x20
  const SamplingClockOutDiv2: uint8 := 0x40

  const ControlActive: uint8 := 1

  /** Line-input volume field (bits 0..4) of either line-input register. */
  function LineInVolume(n: nat): (field: uint8)
    ensures field == n % 32
  {
    SmallPowers();
    AndLowOnes(n, 5);
    ModBelow(n % 32, 0x100);
    ToUint8(And(n, 0x1f))
  }

  /** Headphone volume field (bits 0..5) of either headphone register. */
  function HeadphoneVolume(n: nat): (field: uint8)
    ensures field == n % 64
  {
    SmallPowers();
    AndLowOnes(n, 6);
    ModBelow(n % 64, 0x100);
    ToUint8(And(n, 0x3f))
  }

  /** Sidetone attenuation code in bits 6..7 of the analog path register. */
  function SidetoneAttenuation(n: nat): (field: nat)
    ensures field == n % 4 * 64
  {
    SmallPowers();
    AndLowOnes(n, 2);
    ModBelow(n % 4, 0x100);
    Shl(ToUint8(And(n, 3)), 6)
  }

  /** De-emphasis code in bits 1..2 of the digital path register. */
  function DeEmphasis(n: nat): (field: nat)
    ensures field == n % 4 * 2
  {
    SmallPowers();
    AndLowOnes(n, 2);
    ModBelow(n % 4, 0x100);
    Shl(ToUint8(And(n, 3)), 1)
  }

  /** Interface format code in bits 0..1 of the interface register. */
  function InterfaceFormat(n: nat): (field: uint8)
    ensures field == n % 4
  {
    SmallPowers();
    AndLowOnes(n, 2);
    ModBelow(n % 4, 0x100);
    ToUint8(And(n, 3))
  }

  /** Word-length code in bits 2..3 of the interface register. */
  function InterfaceWordLength(n: nat): (field: nat)
    ensures field == n % 4 * 4
  {
    SmallPowers();
    AndLowOnes(n, 2);
    ModBelow(n % 4, 0x100);
    Shl(ToUint8(And(n, 3)), 2)
  }

  /** Sample-rate code in bits 2..5 of the sampling register. */
  function SampleRate(n: nat): (field: nat)
    ensures field == n % 16 * 4
  {
    SmallPowers();
    AndLowOnes(n, 4);
    ModBelow(n % 16, 0x100);
    Shl(ToUint8(And(n, 0x0f)), 2)
  }

  /** The line-input volume field shares no bit with its mask, and field and mask together make up the low byte. */
  lemma LineInVolumePartitionsByte(n: nat)
    ensures And(LineInVolume(n), LineInVolumeMask) == 0
    ensures Or(0x1f, LineInVolumeMask) == 0xff
  {
    SmallPowers();
    var f := LineInVolume(n);
    FieldOfMask(f, 5, 3);
    assert Shl(Pow2(3) - 1, 5) == LineInVolumeMask;
    assert Shr(f, 5) == 0;
    OrDisjoint(0x1f, LineInVolumeMask, 5);
  }

  /** The headphone volume field shares no bit with its mask, and field and mask together make up the low byte. */
  lemma HeadphoneVolumePartitionsByte(n: nat)
    ensures And(HeadphoneVolume(n), HeadphoneVolumeMask) == 0
    ensures Or(0x3f, HeadphoneVolumeMask) == 0xff
  {
    SmallPowers();
    var f := HeadphoneVolume(n);
    FieldOfMask(f, 6, 2);
    assert Shl(Pow2(2) - 1, 6) == HeadphoneVolumeMask;
    assert Shr(f, 6) == 0;
    OrDisjoint(0x3f, HeadphoneVolumeMask, 6);
  }

  /** Masking with the line-input volume mask keeps bits 5..7. */
  lemma LineInVolumeMaskKeeps(x: nat)
    ensures And(x, LineInVolumeMask) == x / 32 % 8 * 32
  {
    SmallPowers();
    FieldOfMask(x, 5, 3);
    assert Shl(Pow2(3) - 1, 5) == LineInVolumeMask;
  }

  /** Masking with the headphone volume mask keeps bits 6..7. */
  lemma HeadphoneVolumeMaskKeeps(x: nat)
    ensures And(x, HeadphoneVolumeMask) == x / 64 % 4 * 64
  {
    SmallPowers();
    FieldOfMask(x, 6, 2);
    assert Shl(Pow2(2) - 1, 6) == HeadphoneVolumeMask;
  }

  /** The format and word-length codes occupy different bits, so their `|` gives both codes back. */
  lemma InterfaceFieldsDecode(format: nat, wordLength: nat)
    ensures var x := Or(InterfaceFormat(format), InterfaceWordLength(wordLength));
            And(x, 3) == format % 4 && And(Shr(x, 2), 3) == wordLength % 4
  {
    SmallPowers();
    var f, w := InterfaceFormat(format), InterfaceWordLength(wordLength);
    var x := Or(f, w);
    DivModUnique(w, 4, wordLength % 4, 0);
    OrDisjoint(f, w, 2);
    DivModUnique(x, 4, wordLength % 4, f);
    AndLowOnes(x, 2);
    assert Shr(x, 2) == wordLength % 4;
    AndLowOnes(Shr(x, 2), 2);
    ModBelow(wordLength % 4, 4);
  }

  /**
   The sample-rate code is a multiple of 4 no larger than 0x3C, so it leaves the USB-mode and
   oversampling bits alone; it does reach the core-clock divider bit, exactly when bit 3 of the
   code is set.
   */
  lemma SampleRateFieldPlacement(n: nat)
    ensures SampleRate(n) % 4 == 0 && SampleRate(n) <= 0x3c
    ensures And(SampleRate(n), Or(SamplingUsbMode, SamplingBaseOversampling)) == 0
    ensures And(SampleRate(n), SamplingCoreClockDiv2) != 0 <==> n % 16 >= 8
  {
    var s := SampleRate(n);
    SmallPowers();
    assert Or(SamplingUsbMode, SamplingBaseOversampling) == Pow2(2) - 1;
    AndLowOnes(s, 2);
    FieldOfMask(s, 5, 1);
    assert Shl(Pow2(1) - 1, 5) == SamplingCoreClockDiv2;
  }

  /** The de-emphasis code shares no bit with the other flags of the digital path register. */
  lemma DeEmphasisDisjoint(n: nat)
    ensures And(DeEmphasis(n), Or(Or(DigitalAdcHighPassDisable, DigitalDacMute), DigitalHighPassOffset)) == 0
  {
    SmallPowers();
    var d := DeEmphasis(n);
    var flags := Or(Or(DigitalAdcHighPassDisable, DigitalDacMute), DigitalHighPassOffset);
    assert flags == 0x19;
    AndMod(d, flags, 3);
    ModBelow(And(d, flags), 8);
    ModBelow(d, 8);
    DivModUnique(flags, 8, 3, 1);
    AndLowOnes(d, 1);
    DivModUnique(d, 2, n % 4, 0);
  }

  /** The sidetone attenuation code fits in bits 6..7: it shares no bit with bits 0..5. */
  lemma SidetoneAttenuationDisjoint(n: nat)
    ensures And(SidetoneAttenuation(n), 0x3f) == 0
    ensures SidetoneAttenuation(n) <= 0xc0
  {
    SmallPowers();
    var s := SidetoneAttenuation(n);
    AndLowOnes(s, 6);
    DivModUnique(s, 64, n % 4, 0);
  }
}
