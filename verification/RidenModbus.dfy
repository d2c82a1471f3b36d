/** The register accessors of RidenModbus over a power supply whose registers are stable while they are read. */
module RidenModbus {
  import opened Options
  import opened Registers

  datatype AllValues = AllValues(now: Measurements, settings: Settings)

  /** How many registers a bulk read wants. */
  function Total(subset: bool): nat {
    if subset then SUBSET_END + 1 else M9_OCP + 1
  }

  class PowerSupply {
    var regs: seq<u16>            // the device
    const scales: Scales          // v_multi, i_multi, p_multi and v_in_multi
    ghost var answered: seq<Range>   // bookkeeping: the reads that were answered

    ghost predicate Valid()
      reads this
    {
      IsFile(regs) && scales.Ok()
    }

    constructor (regs: seq<u16>, scales: Scales)
      requires IsFile(regs) && scales.Ok()
      ensures Valid() && this.regs == regs && this.scales == scales && answered == []
    {
      this.regs, this.scales, answered := regs, scales, [];
    }

    /** Whether the transaction succeeds is up to the line. */
    method ReadHoldingRegisters(offset: nat, values: array<u16>, at: nat, numregs: nat) returns (ok: bool)
      requires Valid() && offset + numregs <= |regs| && at + numregs <= values.Length
      modifies this`answered, values
      ensures ok ==>
        && values[..] == WriteRegs(old(values[..]), at, regs[offset..offset + numregs])
        && answered == old(answered) + [Range(offset, numregs)]
    {
      ok := *;
      if ok {
        forall i | 0 <= i < numregs {
          values[at + i] := regs[offset + i];
        }
        answered := answered + [Range(offset, numregs)];
      }
    }

    /** A failed write may or may not have reached the device. */
    method WriteHoldingRegisters(offset: nat, values: seq<u16>) returns (ok: bool)
      requires Valid() && offset + |values| <= |regs|
      modifies this`regs
      ensures Valid()
      ensures regs == WriteRegs(old(regs), offset, values) || (!ok && regs == old(regs))
    {
      ok := *;
      var reached: bool := *;
      if ok || reached {
        regs := WriteRegs(regs, offset, values);
      }
    }

    /**
     * The bulk read: at most 20 registers at a time, then every field from the array. On failure the
     * caller's values stay as they were; a subset read leaves the settings alone.
     */
    method GetAllValues(all: AllValues, subset: bool) returns (ok: bool, result: AllValues)
      requires Valid()
      modifies this`answered
      ensures ok ==>
        && result.now == MeasurementsOf(regs, scales)
        && result.settings == (if subset then all.settings else SettingsOf(regs, scales))
        && answered == old(answered) + Chunks(0, if subset then 43 else 120)
      ensures !ok ==> result == all
    {
      result := all;
      var total := Total(subset);
      var values := new u16[total](_ => 0);
      ok := ReadAll(values);
      if !ok {
        return;
      }
      var now := Measurements(
        Temperature(values[4], values[5]), Temperature(values[6], values[7]),
        Scaled(values[8], scales.voltage), Scaled(values[9], scales.current),
        Scaled(values[10], scales.voltage), Scaled(values[11], scales.current),
        Scaled(Joined(values[12], values[13]), scales.power), Scaled(values[14], scales.voltageIn),
        values[15] != 0, ToProtection(values[16]), ToOutputMode(values[17]), values[18] != 0, values[20],
        values[32] != 0, Scaled(values[33], scales.voltage),
        Temperature(values[34], values[35]), Temperature(values[36], values[37]),
        Scaled(Joined(values[38], values[39]), 1000.0), Scaled(Joined(values[40], values[41]), 1000.0));
      result := result.(now := now);
      if subset {
        return;
      }
      var year: int, month: int := values[48], values[49];
      var clock := Tm(year - 1900, month - 1, values[50], values[51], values[52], values[53]);
      var presets := ReadPresets(values);
      result := result.(settings := Settings(
        clock, values[66] != 0, values[67] != 0, values[68] != 0, values[69] != 0, values[70] != 0,
        values[71], values[72] % 0x100, values[55..63], presets));
    }

    /** The chunked loop: afterwards the array holds exactly the first registers of the device. */
    method ReadAll(values: array<u16>) returns (ok: bool)
      requires Valid() && values.Length <= |regs|
      modifies this`answered, values
      ensures ok ==> values[..] == regs[..values.Length] && answered == old(answered) + Chunks(0, values.Length)
    {
      var first := 0;
      while first < values.Length
        invariant 0 <= first
        invariant forall i | 0 <= i < values.Length && i < first :: values[i] == regs[i]
        invariant answered + Chunks(first, values.Length) == old(answered) + Chunks(0, values.Length)
      {
        var count := if CHUNK < values.Length - first then CHUNK else values.Length - first;
        ghost var before, rest := answered, Chunks(first + CHUNK, values.Length);
        ghost var filled := values[..];
        ok := ReadHoldingRegisters(first, values, first, count);
        if !ok {
          return;
        }
        assert before + ([Range(first, count)] + rest) == answered + rest;
        forall i | 0 <= i < values.Length && i < first + CHUNK ensures values[i] == regs[i] {
          assert values[i] == values[..][i];
          assert i < first ==> filled[i] == regs[i];
        }
        first := first + CHUNK;
      }
      ok := true;
    }

    /** The loop over M1 to M9. */
    method ReadPresets(values: array<u16>) returns (presets: seq<Preset>)
      requires scales.Ok() && values.Length == M9_OCP + 1
      ensures presets == PresetsOf(values[..], scales)
    {
      presets := [];
      var index := 0;
      while index < NUMBER_OF_PRESETS
        invariant index <= NUMBER_OF_PRESETS && presets == PresetsOf(values[..], scales)[..index]
      {
        var at := M0_V + 4 * (index + 1);
        presets := presets + [Preset(Scaled(values[at], scales.voltage), Scaled(values[at + 1], scales.current),
                                     Scaled(values[at + 2], scales.voltage), Scaled(values[at + 3], scales.current))];
        index := index + 1;
      }
    }

    method GetPreset(index: nat) returns (preset: Option<Preset>)
      requires Valid()
      modifies this`answered
      ensures preset.Some? ==> preset == Registers.GetPreset(regs, scales, index)
      ensures index >= NUMBER_OF_PRESETS ==> preset.None?
    {
      if index >= NUMBER_OF_PRESETS {
        return None;
      }
      var values := new u16[4](_ => 0);
      var ok := ReadHoldingRegisters(M0_V + 4 * index, values, 0, 4);
      if !ok {
        return None;
      }
      assert values[..] == regs[M0_V + 4 * index..M0_V + 4 * index + 4];
      assert forall i | 0 <= i < 4 :: values[i] == values[..][i];
      preset := Some(Preset(Scaled(values[0], scales.voltage), Scaled(values[1], scales.current),
                            Scaled(values[2], scales.voltage), Scaled(values[3], scales.current)));
    }

    method SetPreset(index: nat, preset: Preset) returns (ok: bool)
      requires Valid() && PresetFits(preset, scales)
      modifies this`regs
      ensures Valid()
      ensures if index >= NUMBER_OF_PRESETS then !ok && regs == old(regs)
              else regs == Registers.SetPreset(old(regs), scales, index, preset) || (!ok && regs == old(regs))
    {
      if index >= NUMBER_OF_PRESETS {
        return false;
      }
      ok := WriteHoldingRegisters(M0_V + 4 * index, [
        ToValue(preset.voltage, scales.voltage), ToValue(preset.current, scales.current),
        ToValue(preset.overVoltage, scales.voltage), ToValue(preset.overCurrent, scales.current)]);
    }

    method SetClock(t: Tm) returns (ok: bool)
      requires Valid()
      modifies this`regs
      ensures Valid() && (regs == Registers.SetClock(old(regs), t) || (!ok && regs == old(regs)))
    {
      ok := WriteHoldingRegisters(YEAR, [U16(t.year + 1900), U16(t.month + 1), U16(t.day), U16(t.hour), U16(t.minute),
                                         U16(t.second)]);
    }

    method GetClock() returns (ok: bool, t: Tm)
      requires Valid()
      modifies this`answered
      ensures ok ==> t == Registers.GetClock(regs)
    {
      t := Tm(0, 0, 0, 0, 0, 0);
      var values := new u16[6](_ => 0);
      ok := ReadHoldingRegisters(YEAR, values, 0, 6);
      if ok {
        assert values[..] == regs[YEAR..YEAR + 6];
        assert forall i | 0 <= i < 6 :: values[i] == values[..][i];
        var year: int, month: int := values[0], values[1];
        t := Tm(year - 1900, month - 1, values[2], values[3], values[4], values[5]);
      }
    }
  }
}
