/** The holding registers of the power supply and what their values mean (sections 6.3, 6.6 and 6.12 of the
    MODBUS Application Protocol V1.1b3 move them). */
module Registers {
  import opened Options

  type u16 = i: int | 0 <= i < 0x1_0000

  // The register map.
  const TEMPERATURE_C: nat := 4
  const TEMPERATURE_F: nat := 6
  const VOLTAGE_SET: nat := 8
  const CURRENT_SET: nat := 9
  const VOLTAGE_OUT: nat := 10
  const CURRENT_OUT: nat := 11
  const POWER_OUT: nat := 12
  const VOLTAGE_IN: nat := 14
  const KEYPAD: nat := 15
  const PROTECTION: nat := 16
  const OUTPUT_MODE: nat := 17
  const OUTPUT: nat := 18
  const CURRENT_RANGE: nat := 20
  const BATTERY_MODE: nat := 32
  const VOLTAGE_BATTERY: nat := 33
  const PROBE_C: nat := 34
  const PROBE_F: nat := 36
  const AMPERE_HOURS: nat := 38
  const WATT_HOURS: nat := 40
  const SUBSET_END: nat := 42
  const YEAR: nat := 48
  const HOUR: nat := 51
  const CALIBRATION: nat := 55
  const TAKE_OK: nat := 66
  const TAKE_OUT: nat := 67
  const POWER_ON_BOOT: nat := 68
  const BUZZER: nat := 69
  const LOGO: nat := 70
  const LANGUAGE: nat := 71
  const BRIGHTNESS: nat := 72
  const M0_V: nat := 80
  const M9_OCP: nat := 119

  const NUMBER_OF_PRESETS: nat := 9
  const CHUNK: nat := 20

  /** Register values, with all registers this firmware touches. */
  predicate IsFile(regs: seq<u16>) {
    |regs| > M9_OCP
  }

  /** The multipliers `begin` settles on. */
  datatype Scales = Scales(voltage: real, current: real, power: real, voltageIn: real) {
    predicate Ok() {
      voltage > 0.0 && current > 0.0 && power > 0.0 && voltageIn > 0.0
    }
  }

  // ----- Values -----

  function Scaled(value: int, scale: real): real
    requires scale > 0.0
  {
    value as real / scale
  }

  /** Two registers, high word first. */
  function Joined(hi: u16, lo: u16): int {
    hi * 0x1_0000 + lo
  }

  function Temperature(sign: u16, value: u16): real {
    if sign == 0 then value as real else -(value as real)
  }

  datatype Protection = Ovp | Ocp | NoProtection

  function ToProtection(value: u16): Protection {
    if value == 1 then Ovp else if value == 2 then Ocp else NoProtection
  }

  datatype OutputMode = ConstantVoltage | ConstantCurrent | UnknownMode

  function ToOutputMode(value: u16): OutputMode {
    if value == 0 then ConstantVoltage else if value == 1 then ConstantCurrent else UnknownMode
  }

  /** Broken-down time as the C library has it: years since 1900, months from 0. */
  datatype Tm = Tm(year: int, month: int, day: int, hour: int, minute: int, second: int)

  datatype Preset = Preset(voltage: real, current: real, overVoltage: real, overCurrent: real)

  // ----- The individual getters: what each register means on its own -----

  function GetVoltage(regs: seq<u16>, m: Scales, reg: nat): real
    requires reg < |regs| && m.Ok()
  {
    Scaled(regs[reg], m.voltage)
  }

  function GetCurrent(regs: seq<u16>, m: Scales, reg: nat): real
    requires reg < |regs| && m.Ok()
  {
    Scaled(regs[reg], m.current)
  }

  function GetTemperature(regs: seq<u16>, reg: nat): real
    requires reg + 1 < |regs|
  {
    Temperature(regs[reg], regs[reg + 1])
  }

  /** A double register, scaled. */
  function GetLong(regs: seq<u16>, reg: nat, scale: real): real
    requires reg + 1 < |regs| && scale > 0.0
  {
    Scaled(Joined(regs[reg], regs[reg + 1]), scale)
  }

  function GetBoolean(regs: seq<u16>, reg: nat): bool
    requires reg < |regs|
  {
    regs[reg] != 0
  }

  function GetClock(regs: seq<u16>): Tm
    requires IsFile(regs)
  {
    var year: int, month: int := regs[YEAR], regs[YEAR + 1];
    Tm(year - 1900, month - 1, regs[YEAR + 2], regs[YEAR + 3], regs[YEAR + 4], regs[YEAR + 5])
  }

  function GetBrightness(regs: seq<u16>): int
    requires IsFile(regs)
  {
    regs[BRIGHTNESS] % 0x100
  }

  /** Preset registers come in groups of four, the group of M0 first. */
  function PresetAt(regs: seq<u16>, m: Scales, base: nat): Preset
    requires base + 3 < |regs| && m.Ok()
  {
    Preset(GetVoltage(regs, m, base), GetCurrent(regs, m, base + 1),
           GetVoltage(regs, m, base + 2), GetCurrent(regs, m, base + 3))
  }

  function GetPreset(regs: seq<u16>, m: Scales, index: nat): Option<Preset>
    requires IsFile(regs) && m.Ok()
  {
    if index >= NUMBER_OF_PRESETS then None else Some(PresetAt(regs, m, M0_V + 4 * index))
  }

  // ----- Writing -----

  function WriteRegs(regs: seq<u16>, offset: nat, values: seq<u16>): (r: seq<u16>)
    requires offset + |values| <= |regs|
    ensures |r| == |regs|
  {
    regs[..offset] + values + regs[offset + |values|..]
  }

  /** Conversion to an unsigned 16-bit integer. */
  function U16(i: int): u16 {
    i % 0x1_0000
  }

  predicate Encodable(x: real, scale: real) {
    0.0 <= x * scale < 65536.0
  }

  /** A physical value as a register value: scaled, and cut off behind the point. */
  function ToValue(x: real, scale: real): u16
    requires Encodable(x, scale)
  {
    (x * scale).Floor
  }

  predicate PresetFits(p: Preset, m: Scales) {
    && Encodable(p.voltage, m.voltage) && Encodable(p.current, m.current)
    && Encodable(p.overVoltage, m.voltage) && Encodable(p.overCurrent, m.current)
  }

  function PresetValues(p: Preset, m: Scales): (values: seq<u16>)
    requires PresetFits(p, m)
    ensures |values| == 4
  {
    [ToValue(p.voltage, m.voltage), ToValue(p.current, m.current),
     ToValue(p.overVoltage, m.voltage), ToValue(p.overCurrent, m.current)]
  }

  function SetPreset(regs: seq<u16>, m: Scales, index: nat, p: Preset): (r: seq<u16>)
    requires IsFile(regs) && PresetFits(p, m) && index < NUMBER_OF_PRESETS
    ensures |r| == |regs|
  {
    WriteRegs(regs, M0_V + 4 * index, PresetValues(p, m))
  }

  datatype Setter = VoltageOut | CurrentOut | OverVoltage | OverCurrent

  /** set_preset_voltage_out and its three siblings. */
  function SetOne(regs: seq<u16>, m: Scales, index: nat, p: Preset, which: Setter): (r: seq<u16>)
    requires IsFile(regs) && PresetFits(p, m) && index < NUMBER_OF_PRESETS
    ensures |r| == |regs|
  {
    match which
    case VoltageOut => WriteRegs(regs, 80 + 4 * index, [ToValue(p.voltage, m.voltage)])
    case CurrentOut => WriteRegs(regs, 81 + 4 * index, [ToValue(p.current, m.current)])
    case OverVoltage => WriteRegs(regs, 82 + 4 * index, [ToValue(p.overVoltage, m.voltage)])
    case OverCurrent => WriteRegs(regs, 83 + 4 * index, [ToValue(p.overCurrent, m.current)])
  }

  function SetMany(regs: seq<u16>, m: Scales, index: nat, p: Preset, order: seq<Setter>): (r: seq<u16>)
    requires IsFile(regs) && PresetFits(p, m) && index < NUMBER_OF_PRESETS
    ensures |r| == |regs|
  {
    if order == [] then regs
    else SetOne(SetMany(regs, m, index, p, order[..|order| - 1]), m, index, p, order[|order| - 1])
  }

  /** The register behind a setter, counted from the start of the preset's group. */
  function Place(which: Setter): nat {
    match which
    case VoltageOut => 0
    case CurrentOut => 1
    case OverVoltage => 2
    case OverCurrent => 3
  }

  lemma SetOneWrites(regs: seq<u16>, m: Scales, index: nat, p: Preset, which: Setter)
    requires IsFile(regs) && PresetFits(p, m) && index < NUMBER_OF_PRESETS
    ensures forall k | 0 <= k < |regs| ::
      SetOne(regs, m, index, p, which)[k]
        == if k == M0_V + 4 * index + Place(which) then PresetValues(p, m)[Place(which)] else regs[k]
  {
  }

  /** Any run of single setters changes exactly the registers it names, to the preset's values. */
  lemma {:induction false} SetManyWrites(regs: seq<u16>, m: Scales, index: nat, p: Preset, order: seq<Setter>)
    requires IsFile(regs) && PresetFits(p, m) && index < NUMBER_OF_PRESETS
    ensures var r := SetMany(regs, m, index, p, order);
      && (forall w | w in order :: r[M0_V + 4 * index + Place(w)] == PresetValues(p, m)[Place(w)])
      && (forall k | 0 <= k < |regs| && (forall w | w in order :: k != M0_V + 4 * index + Place(w)) :: r[k] == regs[k])
    decreases |order|
  {
    if order != [] {
      var before, last := order[..|order| - 1], order[|order| - 1];
      SetManyWrites(regs, m, index, p, before);
      SetOneWrites(SetMany(regs, m, index, p, before), m, index, p, last);
      assert forall w :: w in order <==> w in before || w == last by { assert order == before + [last]; }
    }
  }

  /** Setting a whole preset is setting its four parts, in any order, even repeatedly; no other register changes. */
  lemma SetPresetIsFourSetters(regs: seq<u16>, m: Scales, index: nat, p: Preset, order: seq<Setter>)
    requires IsFile(regs) && PresetFits(p, m) && index < NUMBER_OF_PRESETS
    requires forall w: Setter :: w in order
    ensures SetMany(regs, m, index, p, order) == SetPreset(regs, m, index, p)
    ensures forall k | 0 <= k < |regs| && !(0 <= k - M0_V - 4 * index < 4) ::
      SetPreset(regs, m, index, p)[k] == regs[k]
  {
    SetManyWrites(regs, m, index, p, order);
    var many, whole, base := SetMany(regs, m, index, p, order), SetPreset(regs, m, index, p), M0_V + 4 * index;
    SetPresetWrites(regs, m, index, p);
    forall k | 0 <= k < |regs| ensures many[k] == whole[k] {
      if base <= k < base + 4 {
        var w := if k == base then VoltageOut else if k == base + 1 then CurrentOut
                 else if k == base + 2 then OverVoltage else OverCurrent;
        assert w in order && k == base + Place(w);
      }
    }
  }

  lemma SetPresetWrites(regs: seq<u16>, m: Scales, index: nat, p: Preset)
    requires IsFile(regs) && PresetFits(p, m) && index < NUMBER_OF_PRESETS
    ensures forall k | 0 <= k < |regs| ::
      SetPreset(regs, m, index, p)[k]
        == if 0 <= k - M0_V - 4 * index < 4 then PresetValues(p, m)[k - M0_V - 4 * index] else regs[k]
  {
  }

  // ----- The clock -----

  function ClockValues(t: Tm): (values: seq<u16>)
    ensures |values| == 6
  {
    [U16(t.year + 1900), U16(t.month + 1), U16(t.day), U16(t.hour), U16(t.minute), U16(t.second)]
  }

  function SetClock(regs: seq<u16>, t: Tm): (r: seq<u16>)
    requires IsFile(regs)
    ensures |r| == |regs|
  {
    WriteRegs(regs, YEAR, ClockValues(t))
  }

  function SetDate(regs: seq<u16>, year: u16, month: u16, day: u16): (r: seq<u16>)
    requires IsFile(regs)
    ensures |r| == |regs|
  {
    WriteRegs(regs, YEAR, [year, month, day])
  }

  function SetTime(regs: seq<u16>, hour: u16, minute: u16, second: u16): (r: seq<u16>)
    requires IsFile(regs)
    ensures |r| == |regs|
  {
    WriteRegs(regs, HOUR, [hour, minute, second])
  }

  /** Date and time can be set in either order, and together they are the clock. */
  lemma DateAndTimeAreTheClock(regs: seq<u16>, t: Tm)
    requires IsFile(regs)
    ensures var v := ClockValues(t);
      && SetTime(SetDate(regs, v[0], v[1], v[2]), v[3], v[4], v[5]) == SetClock(regs, t)
      && SetDate(SetTime(regs, v[3], v[4], v[5]), v[0], v[1], v[2]) == SetClock(regs, t)
  {
  }

  /** A field that survives the trip through a register. */
  predicate InRange(i: int) {
    0 <= i < 0x1_0000
  }

  predicate ClockFits(t: Tm) {
    && InRange(t.year + 1900) && InRange(t.month + 1) && InRange(t.day)
    && InRange(t.hour) && InRange(t.minute) && InRange(t.second)
  }

  /** The clock read back is the clock set exactly when every field fits its register. */
  lemma ClockRoundTrip(regs: seq<u16>, t: Tm)
    requires IsFile(regs)
    ensures GetClock(SetClock(regs, t)) == t <==> ClockFits(t)
    ensures forall k | 0 <= k < |regs| && !(YEAR <= k < YEAR + 6) :: SetClock(regs, t)[k] == regs[k]
  {
    var r := SetClock(regs, t);
    assert r[YEAR..YEAR + 6] == ClockValues(t);
    forall k | 0 <= k < 6 ensures r[YEAR + k] == ClockValues(t)[k] {
      assert r[YEAR + k] == r[YEAR..YEAR + 6][k];
    }
    assert r[YEAR] == ClockValues(t)[0] && r[YEAR + 1] == ClockValues(t)[1] && r[YEAR + 2] == ClockValues(t)[2];
    assert r[YEAR + 3] == ClockValues(t)[3] && r[YEAR + 4] == ClockValues(t)[4] && r[YEAR + 5] == ClockValues(t)[5];
  }

  // ----- Bulk reading -----

  /** The part of AllValues a subset read fills in. */
  datatype Measurements = Measurements(
    temperatureC: real, temperatureF: real, voltageSet: real, currentSet: real, voltageOut: real, currentOut: real,
    powerOut: real, voltageIn: real, keypadLocked: bool, protection: Protection, outputMode: OutputMode,
    outputOn: bool, currentRange: u16, isBatteryMode: bool, voltageBattery: real, probeC: real, probeF: real,
    ah: real, wh: real)

  datatype Settings = Settings(
    clock: Tm, isTakeOk: bool, isTakeOut: bool, isPowerOnBoot: bool, isBuzzerEnabled: bool, isLogo: bool,
    language: u16, brightness: int, calibration: seq<u16>, presets: seq<Preset>)

  /** Every field as the getter for it alone would return it. */
  function MeasurementsOf(regs: seq<u16>, m: Scales): Measurements
    requires |regs| > SUBSET_END && m.Ok()
  {
    Measurements(
      GetTemperature(regs, TEMPERATURE_C), GetTemperature(regs, TEMPERATURE_F),
      GetVoltage(regs, m, VOLTAGE_SET), GetCurrent(regs, m, CURRENT_SET),
      GetVoltage(regs, m, VOLTAGE_OUT), GetCurrent(regs, m, CURRENT_OUT),
      GetLong(regs, POWER_OUT, m.power), Scaled(regs[VOLTAGE_IN], m.voltageIn),
      GetBoolean(regs, KEYPAD), ToProtection(regs[PROTECTION]), ToOutputMode(regs[OUTPUT_MODE]),
      GetBoolean(regs, OUTPUT), regs[CURRENT_RANGE], GetBoolean(regs, BATTERY_MODE),
      GetVoltage(regs, m, VOLTAGE_BATTERY), GetTemperature(regs, PROBE_C), GetTemperature(regs, PROBE_F),
      GetLong(regs, AMPERE_HOURS, 1000.0), GetLong(regs, WATT_HOURS, 1000.0))
  }

  /** The bulk read counts presets from M1. */
  function PresetsOf(regs: seq<u16>, m: Scales): (presets: seq<Preset>)
    requires IsFile(regs) && m.Ok()
    ensures |presets| == NUMBER_OF_PRESETS
  {
    seq(NUMBER_OF_PRESETS, i requires 0 <= i < NUMBER_OF_PRESETS => PresetAt(regs, m, M0_V + 4 * (i + 1)))
  }

  function SettingsOf(regs: seq<u16>, m: Scales): Settings
    requires IsFile(regs) && m.Ok()
  {
    Settings(
      GetClock(regs), GetBoolean(regs, TAKE_OK), GetBoolean(regs, TAKE_OUT), GetBoolean(regs, POWER_ON_BOOT),
      GetBoolean(regs, BUZZER), GetBoolean(regs, LOGO), regs[LANGUAGE], GetBrightness(regs),
      regs[CALIBRATION..CALIBRATION + 8], PresetsOf(regs, m))
  }

  /**
   * The bulk read and the preset getter agree on M1 to M8. The getter knows M0 as well, but refuses index 9
   * although it is documented to take it, so M9 is seen by the bulk read alone.
   */
  lemma PresetsAgree(regs: seq<u16>, m: Scales, index: nat)
    requires IsFile(regs) && m.Ok()
    ensures GetPreset(regs, m, index).Some? <==> index <= 8
    ensures 1 <= index <= 8 ==> GetPreset(regs, m, index) == Some(PresetsOf(regs, m)[index - 1])
    ensures PresetsOf(regs, m)[8] == PresetAt(regs, m, M9_OCP - 3)
  {
  }

  // ----- What the registers mean, by their numbers in the register map -----

  lemma ScaledTimes(value: int, scale: real)
    requires scale > 0.0
    ensures Scaled(value, scale) * scale == value as real
  {
  }

  /** The first register is the high word, the second the low word. */
  lemma JoinedIsItsWords(hi: u16, lo: u16)
    ensures Joined(hi, lo) / 0x1_0000 == hi && Joined(hi, lo) % 0x1_0000 == lo
  {
  }

  /** Two registers that hold the words of a 32-bit value, high word first, read as that value. */
  lemma LongReadsBack(regs: seq<u16>, reg: nat, scale: real, value: nat)
    requires reg + 1 < |regs| && scale > 0.0
    requires value < 0x1_0000_0000 && regs[reg] == value / 0x1_0000 && regs[reg + 1] == value % 0x1_0000
    ensures GetLong(regs, reg, scale) * scale == value as real
  {
    ScaledTimes(value, scale);
  }

  /** Sign and codes: 0 is above zero; 1 and 2 are over-voltage and over-current; 0 and 1 constant voltage and current. */
  lemma CodesMean(value: u16, sign: u16)
    ensures ToProtection(value) == Ovp <==> value == 1
    ensures ToProtection(value) == Ocp <==> value == 2
    ensures ToOutputMode(value) == ConstantVoltage <==> value == 0
    ensures ToOutputMode(value) == ConstantCurrent <==> value == 1
    ensures Temperature(sign, value) >= 0.0 <==> sign == 0 || value == 0
    ensures Temperature(sign, value) * Temperature(sign, value) == (value * value) as real
  {
  }

  /** `x` is what the registers from `reg` on hold as a 32-bit value, in units of 1 / scale. */
  predicate LongAt(regs: seq<u16>, reg: nat, scale: real, x: real)
    requires reg + 1 < |regs|
  {
    var hi: int, lo: int := regs[reg], regs[reg + 1];
    x * scale == (hi * 0x1_0000 + lo) as real
  }

  /** `x` is what register `reg` holds, in units of 1 / scale. */
  predicate At(regs: seq<u16>, reg: nat, scale: real, x: real)
    requires reg < |regs|
  {
    x * scale == regs[reg] as real
  }

  /** `x` is the temperature whose sign is in register `reg` and whose value is in the next one. */
  predicate DegreesAt(regs: seq<u16>, reg: nat, x: real)
    requires reg + 1 < |regs|
  {
    x == if regs[reg] == 0 then regs[reg + 1] as real else 0.0 - regs[reg + 1] as real
  }

  /** Every measured quantity, from the registers it is in. */
  lemma MeasurementRegisters(regs: seq<u16>, m: Scales)
    requires |regs| >= 43 && m.Ok()
    ensures var now := MeasurementsOf(regs, m);
      && DegreesAt(regs, 4, now.temperatureC) && DegreesAt(regs, 6, now.temperatureF)
      && At(regs, 8, m.voltage, now.voltageSet) && At(regs, 9, m.current, now.currentSet)
      && At(regs, 10, m.voltage, now.voltageOut) && At(regs, 11, m.current, now.currentOut)
      && LongAt(regs, 12, m.power, now.powerOut) && At(regs, 14, m.voltageIn, now.voltageIn)
      && now.keypadLocked == (regs[15] != 0)
      && now.protection == ToProtection(regs[16]) && now.outputMode == ToOutputMode(regs[17])
      && now.outputOn == (regs[18] != 0) && now.currentRange == regs[20] && now.isBatteryMode == (regs[32] != 0)
      && At(regs, 33, m.voltage, now.voltageBattery)
      && DegreesAt(regs, 34, now.probeC) && DegreesAt(regs, 36, now.probeF)
      && LongAt(regs, 38, 1000.0, now.ah) && LongAt(regs, 40, 1000.0, now.wh)
  {
    ScaledTimes(regs[8], m.voltage);
    ScaledTimes(regs[9], m.current);
    ScaledTimes(regs[10], m.voltage);
    ScaledTimes(regs[11], m.current);
    ScaledTimes(Joined(regs[12], regs[13]), m.power);
    ScaledTimes(regs[14], m.voltageIn);
    ScaledTimes(regs[33], m.voltage);
  }

  /** The four values of a preset, from the registers its group starts at. */
  predicate PresetIsAt(regs: seq<u16>, m: Scales, reg: nat, p: Preset)
    requires reg + 3 < |regs|
  {
    && At(regs, reg, m.voltage, p.voltage) && At(regs, reg + 1, m.current, p.current)
    && At(regs, reg + 2, m.voltage, p.overVoltage) && At(regs, reg + 3, m.current, p.overCurrent)
  }

  /** M0 is at register 80 and each preset four registers behind the one before. */
  lemma PresetRegisters(regs: seq<u16>, m: Scales, index: nat)
    requires IsFile(regs) && m.Ok() && index <= 8
    ensures var p := GetPreset(regs, m, index); p.Some? && PresetIsAt(regs, m, 80 + 4 * index, p.value)
  {
    var reg := 80 + 4 * index;
    ScaledTimes(regs[reg], m.voltage);
    ScaledTimes(regs[reg + 1], m.current);
    ScaledTimes(regs[reg + 2], m.voltage);
    ScaledTimes(regs[reg + 3], m.current);
  }

  /** The clock and the settings, from the registers they are in. */
  lemma SettingRegisters(regs: seq<u16>, m: Scales)
    requires IsFile(regs) && m.Ok()
    ensures var s := SettingsOf(regs, m);
      && s.clock.year + 1900 == regs[48] && s.clock.month + 1 == regs[49] && s.clock.day == regs[50]
      && s.clock.hour == regs[51] && s.clock.minute == regs[52] && s.clock.second == regs[53]
      && (forall k | 0 <= k < |s.calibration| :: s.calibration[k] == regs[55 + k]) && |s.calibration| == 8
      && s.isTakeOk == (regs[66] != 0) && s.isTakeOut == (regs[67] != 0) && s.isPowerOnBoot == (regs[68] != 0)
      && s.isBuzzerEnabled == (regs[69] != 0) && s.isLogo == (regs[70] != 0)
      && s.language == regs[71] && s.brightness == regs[72] % 256
  {
  }

  /** Date and time go to registers 48 to 53 in the order of the clock; a field that does not fit wraps around. */
  lemma ClockRegisters(regs: seq<u16>, t: Tm, a: u16, b: u16, c: u16)
    requires IsFile(regs)
    ensures var r := SetClock(regs, t);
      && r[48] == (t.year + 1900) % 0x1_0000 && r[49] == (t.month + 1) % 0x1_0000 && r[50] == t.day % 0x1_0000
      && r[51] == t.hour % 0x1_0000 && r[52] == t.minute % 0x1_0000 && r[53] == t.second % 0x1_0000
    ensures var d := SetDate(regs, a, b, c); d[48] == a && d[49] == b && d[50] == c
    ensures var t := SetTime(regs, a, b, c); t[51] == a && t[52] == b && t[53] == c
  {
  }

  // ----- Chunks -----

  datatype Range = Range(first: nat, count: nat)

  /** The reads the bulk loop makes. */
  function Chunks(first: nat, total: nat): seq<Range>
    decreases total - first
  {
    if first >= total then []
    else
      var n := if CHUNK < total - first then CHUNK else total - first;
      [Range(first, n)] + Chunks(first + CHUNK, total)
  }

  predicate Covers(r: Range, reg: nat) {
    r.first <= reg < r.first + r.count
  }

  /** How many of the reads a register is part of. */
  function TimesRead(cs: seq<Range>, reg: nat): nat {
    if cs == [] then 0 else (if Covers(cs[0], reg) then 1 else 0) + TimesRead(cs[1..], reg)
  }

  /** Every register below the total is read exactly once and no other one is read. */
  lemma {:induction false} EachRegisterReadOnce(first: nat, total: nat, reg: nat)
    ensures TimesRead(Chunks(first, total), reg) == if first <= reg < total then 1 else 0
    decreases total - first
  {
    if first < total {
      EachRegisterReadOnce(first + CHUNK, total, reg);
      var cs := Chunks(first, total);
      assert cs[1..] == Chunks(first + CHUNK, total);
    }
  }

  lemma {:induction false} NoReadTooLong(first: nat, total: nat)
    ensures forall c | c in Chunks(first, total) :: 0 < c.count <= 20
    decreases total - first
  {
    if first < total {
      NoReadTooLong(first + CHUNK, total);
    }
  }
}
