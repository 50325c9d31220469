# WM8731 and TLV5618 drivers in Dafny

This project models two small Arduino drivers for write-only peripheral chips.

- **`WM8731_class`** is the control interface of the Wolfson WM8731 audio codec. The codec's
  registers cannot be read back, so the driver keeps a shadow copy of registers 0..9. Every `set`
  sends one two-byte I2C frame: the register index sits in the upper seven bits of the first byte,
  and a nine-bit value fills the rest. `setInputVolume` and `setOutputVolume` read the shadow,
  change the volume field and write both channels. `begin` initializes the bus the first time only,
  then resets the codec and writes a fixed configuration of ten frames.
- **`TLV5618`** drives the Texas Instruments TLV5618 two-channel 12-bit SPI DAC. Each command word
  is two bytes framed by chip select going low and then high. The first byte holds bits 8..11 of
  the value, the command and the speed/power control bits. The second byte holds the low eight
  bits of the value.

The modules are:

- `Bits`: C's unsigned `&`, `|`, shifts and the cast to `unsigned char` on `nat`, with lemmas
  that reduce mask-and-shift expressions to arithmetic.
- `Wm8731Registers`: the header's address and register constants, flags, masks and
  field-encoder macros.
- `Wm8731`: the driver. Its static variables are an immutable `Codec` record (bus-initialized flag,
  device address and ten-entry shadow). Each operation returns the next record and the I2C events
  it caused: `BusInit` or `Frame(address, first, second)`.
- `Tlv5618`: the DAC driver. Each operation returns its SPI events: `SpiInit`,
  `PinWrite(pin, high)`, `Transfer(byte)` or `Interrupts(enabled)`. A reference interpreter of the chip, `ChipRun`,
  follows the chip-select pin and the transferred bytes. It uses the meaning of each command given
  in the header's comments:
  - `0x00` loads channel B and the buffer;
  - `0x10` loads the buffer;
  - `0x80` loads channel A and moves the buffer to channel B.

  The lemmas state what each write leaves on the two outputs.

Each side is checked against an independent partner:

- The codec frame encoder is checked against the codec's decoding (`DecodeFrame`), in both
  directions.
- The volume setters are checked against predicates that say which bits change.
- `begin` is checked against a "last write wins" fold over its write list.
- The DAC writes are checked against the chip interpreter.

## Model

| member | source | states |
|---|---|---|
| Wm8731Registers.DeviceAddress | WM8731/WM8731.h:18-24 | CSB low and high give two 7-bit addresses that share the upper six bits 001101 (0x0D) and differ only in the last bit, which is set exactly for CSB high |
| Wm8731Registers.LineInVolume | WM8731/WM8731.h:42 | the line-input volume field is the volume modulo 32 |
| Wm8731Registers.HeadphoneVolume | WM8731/WM8731.h:65 | the headphone volume field is the volume modulo 64, so only 0..63 of the documented 0..127 reach the register |
| Wm8731Registers.SidetoneAttenuation | WM8731/WM8731.h:58 | the sidetone attenuation code, modulo 4, lands in bits 6..7 |
| Wm8731Registers.DeEmphasis | WM8731/WM8731.h:62 | the de-emphasis code, modulo 4, lands in bits 1..2 |
| Wm8731Registers.InterfaceFormat | WM8731/WM8731.h:75 | the interface format code, modulo 4, lands in bits 0..1 |
| Wm8731Registers.InterfaceWordLength | WM8731/WM8731.h:76 | the word-length code, modulo 4, lands in bits 2..3 |
| Wm8731Registers.SampleRate | WM8731/WM8731.h:91 | the sample-rate code, modulo 16, lands in bits 2..5 |
| Wm8731Registers.LineInVolumePartitionsByte | WM8731/WM8731.h:42-43 | the line-input volume field and its mask 0xe0 share no bit and together cover the low byte |
| Wm8731Registers.HeadphoneVolumePartitionsByte | WM8731/WM8731.h:65-66 | the headphone volume field and its mask 0xc0 share no bit and together cover the low byte |
| Wm8731Registers.LineInVolumeMaskKeeps | WM8731/WM8731.h:43 | masking with 0xe0 keeps exactly bits 5..7 of a register value |
| Wm8731Registers.HeadphoneVolumeMaskKeeps | WM8731/WM8731.h:66 | masking with 0xc0 keeps exactly bits 6..7 of a register value |
| Wm8731Registers.InterfaceFieldsDecode | WM8731/WM8731.h:75-76 | or-ing a format field with a word-length field gives both codes back |
| Wm8731Registers.SampleRateFieldPlacement | WM8731/WM8731.h:89-93 | the sample-rate field is a multiple of 4 up to 0x3c and never touches the USB-mode or oversampling bits; it does set the core-clock divider bit, exactly when bit 3 of the code is set |
| Wm8731Registers.DeEmphasisDisjoint | WM8731/WM8731.h:60-63 | the de-emphasis field shares no bit with the high-pass, DC-offset and soft-mute flags |
| Wm8731Registers.SidetoneAttenuationDisjoint | WM8731/WM8731.h:52-58 | the sidetone attenuation field is at most 0xc0 and shares no bit with bits 0..5 |
| Wm8731.DriverFrameBytes | WM8731/WM8731.cpp:148-149 | the driver's shift-and-or expression (index shifted left by one, bit 8 of the value below it) and `value & 0xFF`, each cast to `unsigned char`, are the two frame bytes `EncodeFrame` describes |
| Wm8731.FrameRoundTrip | WM8731/WM8731.cpp:147-150 | the codec decodes a frame to the register index modulo 128 and the value modulo 512 |
| Wm8731.DecodeFrameInjective | WM8731/WM8731.cpp:148-149 | two frames that decode to the same index and value are the same two bytes |
| Wm8731.FrameDecodeRoundTrip | WM8731/WM8731.cpp:148-149 | every pair of bytes is the frame of the index and value it decodes to |
| Wm8731.FrameDropsHighBits | WM8731/WM8731.cpp:148-149 | bit 7 of the register index and bits 9..15 of the value never reach the wire |
| Wm8731.Get | WM8731/WM8731.h:112 | a pure read of shadow entry `reg`, defined for indices below 10; no bus traffic and no change of state |
| Wm8731.Set | WM8731/WM8731.cpp:135-151 | below index 10 the shadow entry becomes the full 16-bit value and no other entry changes; from index 10 up the shadow is unchanged; either way exactly one frame goes to the current address and decodes to the index and value modulo 128 and 512 |
| Wm8731.GetAfterSet | WM8731/WM8731.h:112 | `get` after `set` returns the value just set at that index and the old entry at every other index below 10; an index from 10 up leaves every entry reading as before |
| Wm8731.SetFrameExact | WM8731/WM8731.cpp:147-150 | an index below 128 and a value below 512 decode back exactly |
| Wm8731.DigitalAndResetNeverShadowed | WM8731/WM8731.h:33-38 | the digital path (0x0a) and reset (0x0f) indices are not below 10, so writing them leaves the whole state unchanged |
| Wm8731.Reset | WM8731/WM8731.cpp:77-80 | `reset` sends the bytes 0x1e, 0x00 to the current address and leaves the shadow unchanged |
| Wm8731.SetActive | WM8731/WM8731.cpp:86-90 | the control register becomes 1, every other entry is kept, and one frame decoding to (9, 1) is sent |
| Wm8731.SetInactive | WM8731/WM8731.cpp:96-99 | the control register becomes 0, every other entry is kept, and one frame decoding to (9, 0) is sent |
| Wm8731.InputVolumeByteApplied | WM8731/WM8731.cpp:109-111 | the merged line-input value has the volume modulo 32 in bits 0..4, keeps bits 5..7 and has nothing above bit 7 |
| Wm8731.OutputVolumeByteApplied | WM8731/WM8731.cpp:123-125 | the merged headphone value has the volume modulo 64 in bits 0..5, keeps bits 6..7 and has nothing above bit 7 |
| Wm8731.InputVolumeMerge | WM8731/WM8731.cpp:109 | the driver's expression, the old value masked with 0xe0 or-ed with the volume masked with 0x1f and built in an `unsigned char`, equals the merged value above |
| Wm8731.OutputVolumeMerge | WM8731/WM8731.cpp:123 | the driver's expression, the old value masked with 0xc0 or-ed with the volume masked with 0x3f and built in an `unsigned char`, equals the merged value above |
| Wm8731.SetInputVolume | WM8731/WM8731.cpp:106-113 | both line-input registers get the new volume and keep bits 5..7; the join bit 8 is cleared; registers above 1 are unchanged; two frames, left then right, carry the new values |
| Wm8731.SetOutputVolume | WM8731/WM8731.cpp:120-127 | both headphone registers get the new volume and keep bits 6..7; the join bit 8 is cleared; every other register is unchanged; two frames, left then right, carry the new values |
| Wm8731.OutputVolumeUsesSixBits | WM8731/WM8731.cpp:120-127 | two volumes 64 apart give the same state and the same frames |
| Wm8731.LastWriteUntouched | WM8731/WM8731.cpp:137-138 | a register that no write names keeps its value |
| Wm8731.LastWriteOnly | WM8731/WM8731.cpp:137-138 | a register named by exactly one write ends with that write's value |
| Wm8731.SetAll | WM8731/WM8731.cpp:52-68 | a run of `set` calls sends one frame per write, in order, to the current address; each register ends with the last value written to it |
| Wm8731.Begin | WM8731/WM8731.cpp:41-71 | the address is recorded and the flag set; the bus is initialized only if the flag was clear, and before any frame; then exactly ten frames follow, one per write of `begin`; each register ends with the last value `begin` wrote to it |
| Wm8731.SetAllBusDependsOnlyOnAddress | WM8731/WM8731.cpp:147-150 | the frames of a run of writes depend only on the device address, not on the shadow or the flag |
| Wm8731.BeginFramesExact | WM8731/WM8731.cpp:51-68 | the ten frames decode, in order, to reset 0x0f, 6, 7, 0, 1, 2, 3, 4, 0x0a and 8, each with the value written |
| Wm8731.BeginTwice | WM8731/WM8731.cpp:43-49 | a second `begin` with the same arguments sends no bus initialization, resends the same ten frames and leaves the same state |
| Wm8731.BeginWritesSkipControl | WM8731/WM8731.cpp:51-68 | no write of `begin` names the control register |
| Wm8731.BeginLeavesCodecInactive | WM8731/WM8731.cpp:82-88 | `begin` never writes the control register, so it leaves the shadow's control entry as it was |
| Wm8731.BeginRegistersVolumes | WM8731/WM8731.cpp:60-64 | after `begin` the four volume registers hold 0 |
| Wm8731.BeginRegistersConfiguration | WM8731/WM8731.cpp:54-68 | after `begin` the analog path holds 0x10, power-down holds 0, and the interface and sampling registers hold the caller's flags |
| Wm8731.BeginRegistersUntouched | WM8731/WM8731.cpp:51-68 | `begin` leaves register 5 and the control register as they were |
| Wm8731.BeginRegisters | WM8731/WM8731.cpp:41-71 | after `begin` the shadow is [0, 0, 0, 0, 0x10, old 5, 0, interface flags, sampling flags, old 9] |
| Wm8731.BeginFromStartup | WM8731/WM8731.cpp:31-71 | from program start (bus not initialized, address 0x1a, zeroed shadow as WM8731/WM8731.h:100 declares it), `begin` initializes the bus first, sends ten frames, records the chosen address and leaves the shadow exactly [0, 0, 0, 0, 0x10, 0, 0, interface flags, sampling flags, 0] |
| Tlv5618.NewDac | TLV5618/TLV5618.cpp:14-18 | the one-argument constructor keeps the pin and sets control to slow speed and normal power, which is 0 |
| Tlv5618.NewDacWithControl | TLV5618/TLV5618.cpp:20-24 | the two-argument constructor stores the control byte unchecked |
| Tlv5618.ModeCombinations | TLV5618/TLV5618.h:30-34 | the control bytes made by or-ing one speed mode with one power mode are exactly 0x00, 0x20, 0x40 and 0x60 |
| Tlv5618.Begin | TLV5618/TLV5618.cpp:27-38 | `begin` brings up SPI and then leaves chip select high |
| Tlv5618.BeginDeselects | TLV5618/TLV5618.cpp:35-37 | after `begin` the chip is deselected, whatever state it was in |
| Tlv5618.Select | TLV5618/TLV5618.cpp:40-46 | chip select is active low: a non-zero argument drives the pin low and zero drives it high |
| Tlv5618.SelectFramesWord | TLV5618/TLV5618.cpp:40-64 | `select(b)` with b non-zero, the bare word, then `select(0)` give the same events as `write_data` |
| Tlv5618.WriteDataNoCs | TLV5618/TLV5618.h:59 | two byte transfers and no pin change; with a speed/power control byte and a raw command, the chip reads the value modulo 4096, the command's action and the speed and power bits |
| Tlv5618.WriteData | TLV5618/TLV5618.cpp:56-64 | chip select low, the two bytes of `write_data_no_cs`, chip select high |
| Tlv5618.WriteFast | TLV5618/TLV5618.cpp:68-76 | chip select low, interrupts masked, the two bytes of the command word, interrupts unmasked, chip select high |
| Tlv5618.WriteFastLikeWriteData | TLV5618/TLV5618.cpp:56-76 | the chip ends in the same state after `write_fast` as after `write_data` with the same command and value |
| Tlv5618.Write | TLV5618/TLV5618.cpp:79-94 | two framed words, chip select low and high around each: first `valueA` with the buffer-only command, then `valueB` with the command that loads A and moves the buffer to B |
| Tlv5618.WriteChannels | TLV5618/TLV5618.cpp:79-94 | the corrected `write`, framed the same way |
| Tlv5618.HighNibble | TLV5618/TLV5618.cpp:60 | `(value & 0x0F00) >> 8` is bits 8..11 of the value |
| Tlv5618.DataByteLow | TLV5618/TLV5618.cpp:61 | `value & 0xFF` is the value's low byte |
| Tlv5618.CommandByteLayout | TLV5618/TLV5618.cpp:60 | with a speed/power control byte and a raw command, the first byte is the sum of the value's high nibble, the command and the control byte |
| Tlv5618.CommandNibbles | TLV5618/TLV5618.h:31-42 | the first byte's upper nibble is the or of command and control and its lower nibble is the value's bits 8..11, so the command is recoverable once the control is known |
| Tlv5618.CommandControlDisjoint | TLV5618/TLV5618.h:31-42 | a raw command and a speed/power control byte share no bit |
| Tlv5618.WordValueMasks | TLV5618/TLV5618.cpp:60-61 | the low nibble of the first byte shifted left by 8 and or-ed with the second byte is the 12-bit value the chip reads, and `value & 0xFFF` is the value modulo 4096 |
| Tlv5618.CommandWordDecodes | TLV5618/TLV5618.h:36-42 | the chip reads back the value modulo 4096, the action the command names and the speed and power bits |
| Tlv5618.ValueTruncation | TLV5618/TLV5618.h:7 | a value and the same value modulo 4096 give the same events: bits 12..15 are dropped |
| Tlv5618.FullScaleWrapsToZero | TLV5618/TLV5618.h:7 | 4096, which the header calls valid, is sent exactly as 0 |
| Tlv5618.ChipRunAppend | TLV5618/TLV5618.cpp:79-94 | running two event sequences in turn is running their concatenation |
| Tlv5618.WriteDataTakenIn | TLV5618/TLV5618.cpp:56-64 | the chip takes in the framed word whole when chip select rises, whatever it was doing before |
| Tlv5618.WriteDataEffect | TLV5618/TLV5618.cpp:56-64 | one `write_data` with a raw command leaves the chip deselected with the control's mode bits; the value modulo 4096 lands where the command says and every other output is kept |
| Tlv5618.WriteSwapsChannels | TLV5618/TLV5618.cpp:79-94 | `write(valueA, valueB)` as written leaves channel A at valueB and channel B at valueA, each modulo 4096 |
| Tlv5618.WriteChannelsLoadsBoth | TLV5618/TLV5618.cpp:79-94 | the corrected `write` leaves channel A at valueA and channel B at valueB, each modulo 4096 |

## Findings

| source | as written | input that shows it | evidently intended | confidence | as-written member | corrected member |
|---|---|---|---|---|---|---|
| TLV5618/TLV5618.cpp:79-94 | `write(valueA, valueB)` sends valueA with `CMD_WRITE_BUFFER`, then valueB with `CMD_WRITE_A_UPDATE_B`. By the header's description of the commands, channel A receives valueB and channel B receives valueA | `write(1, 2)` leaves channel A at 2 and channel B at 1 | channel A receives valueA and channel B receives valueB: stage valueB in the buffer, then send valueA with `CMD_WRITE_A_UPDATE_B` | medium, not executed; it rests on the header's description of the commands | Tlv5618.Write (Tlv5618.WriteSwapsChannels) | Tlv5618.WriteChannels (Tlv5618.WriteChannelsLoadsBoth) |

Behaviour reproduced as written and noted here, without a correction:

- The digital path register constant is 0x0a (WM8731/WM8731.h:33). It is outside the shadow, so
  `begin`'s write to it is never shadowed, and register 5 is never written. `BeginFramesExact` and
  `BeginRegistersUntouched` state both facts.
- The headphone volume field keeps six bits (WM8731/WM8731.h:65), but its comment and the doc
  comment of `setOutputVolume` say 0..127. `OutputVolumeUsesSixBits` states the consequence.
- The class declaration (WM8731/WM8731.h:109-110) comments the input volume as 0 to 63 and the
  output volume as 0 to 31. The definitions use 5 and 6 bits, the other way round.
- The header calls 0..4096 valid (TLV5618/TLV5618.h:7), but 4096 is sent as 0
  (`FullScaleWrapsToZero`).
- Both volume setters clear the join bit 8 of the shadow entry. The new value is built in an
  `unsigned char`.

## Left out

- Serial debug output in `set` (WM8731/WM8731.cpp:140-145): it is output only and changes neither
  the state nor the frames.
- Delays (`delay`, `delayMicroseconds`) are timing only and appear in no event.
- `Wire.begin` is folded into the single `BusInit` event. `SPI.begin` with its bit order, mode and
  clock divider, plus `pinMode`, is folded into the single `SpiInit` event.
- The `SPDR`/`SPSR` busy-wait in `write_fast` (TLV5618/TLV5618.cpp:66-75) is register plumbing.
  Only the byte it moves is modelled. `cli()`/`sei()` appear only as events; what interrupts would
  have done meanwhile is not modelled.
- The header's `begin(device_address, sample_rate_hz, word_length_bits, interface_format)`
  (WM8731/WM8731.h:105) has no definition in the source. The model follows the definition in
  WM8731/WM8731.cpp:41, which takes raw sampling and interface flags. No rate or word-length
  lookup is modelled.
- The interface flags `LRP`, `LRSWAP`, `MS` and `MCLKINV` (WM8731/WM8731.h:77-80) have unbalanced
  parentheses, so any use of them fails to compile. They appear as plain constants 0x10, 0x20,
  0x40 and 0x80 and nothing uses them.
- Wm8731.Get: requires an index below 10. The source reads outside the array for larger indices,
  which is undefined behaviour.
- The shadow array is `static` in the header, so each translation unit has its own copy. The model
  keeps one shadow.
- The codec's own reaction to the frames, such as its reset, is not modelled. The driver never
  reads the codec back, so the model covers only the bus and the shadow.
- The TLV5618's analog side is not modelled: reference voltage, settling time and the power-down
  behaviour of the power bit. The chip interpreter records the loaded 12-bit codes and the speed
  and power bits. It keeps both outputs unchanged for the unused command code with bits 7 and 4
  both set.
- Wm8731.Begin: the frames are stated to decode to each write's index and value modulo 128 and
  512. The exact decoding, which holds because every write of `begin` is in range, is stated
  separately in `BeginFramesExact`.
- Tlv5618.WriteDataNoCs: what the chip reads back is stated only for a control byte made of the
  speed and power modes and for one of the three raw commands. With other bytes, the driver's `|`
  can mix the control bits into the value or command bits. The two-argument constructor allows
  that, and the model leaves it unstated.
