/** je8086_patch.decode_params: the documented parameters of a reconstructed patch. */
module Je8086Params {
  import opened Bytes

  const NAME_OFFSET := 1

  /** Offset and name of every documented parameter. */
  const TABLE: seq<(nat, string)> := [
    (0x10, "Lfo1Waveform"), (0x11, "Lfo1Rate"), (0x12, "Lfo1Fade"), (0x13, "Lfo2Rate"), (0x14, "Lfo2DepthSelect"),
    (0x15, "RingModulatorSwitch"), (0x16, "CrossModulationDepth"), (0x17, "OscillatorBalance"),
    (0x18, "Lfo1AndEnvelopeDestination"), (0x19, "OscLfo1Depth"), (0x1A, "PitchLfo2Depth"),
    (0x1B, "PitchEnvelopeDepth"), (0x1C, "PitchEnvelopeAttackTime"), (0x1D, "PitchEnvelopeDecayTime"),
    (0x1E, "Osc1Waveform"), (0x1F, "Osc1Control1"), (0x20, "Osc1Control2"), (0x21, "Osc2Waveform"),
    (0x22, "Osc2SyncSwitch"), (0x23, "Osc2Range"), (0x24, "Osc2FineWide"), (0x25, "Osc2Control1"),
    (0x26, "Osc2Control2"), (0x27, "FilterType"), (0x28, "CutoffSlope"), (0x29, "CutoffFrequency"),
    (0x2A, "Resonance"), (0x2B, "CutoffFrequencyKeyFollow"), (0x2C, "FilterLfo1Depth"), (0x2D, "FilterLfo2Depth"),
    (0x2E, "FilterEnvelopeDepth"), (0x2F, "FilterEnvelopeAttackTime"), (0x30, "FilterEnvelopeDecayTime"),
    (0x31, "FilterEnvelopeSustainLevel"), (0x32, "FilterEnvelopeReleaseTime"), (0x33, "AmpLevel"),
    (0x34, "AmpLfo1Depth"), (0x35, "AmpLfo2Depth"), (0x36, "AmpEnvelopeAttackTime"), (0x37, "AmpEnvelopeDecayTime"),
    (0x38, "AmpEnvelopeSustainLevel"), (0x39, "AmpEnvelopeReleaseTime"), (0x3A, "AutoPanManualPanSwitch"),
    (0x3B, "ToneControlBass"), (0x3C, "ToneControlTreble"), (0x3D, "MultiEffectsType"), (0x3E, "MultiEffectsLevel"),
    (0x3F, "DelayType"), (0x40, "DelayTime"), (0x41, "DelayFeedback"), (0x42, "DelayLevel"), (0x43, "BendRangeUp"),
    (0x44, "BendRangeDown"), (0x45, "PortamentoSwitch"), (0x46, "PortamentoTime"), (0x47, "MonoSwitch"),
    (0x48, "LegatoSwitch"), (0x49, "OscillatorShift"), (0x4A, "ControlLfo1Rate"), (0x4E, "ControlLfo2Rate"),
    (0x50, "ControlCrossModulationDepth"), (0x52, "ControlOscillatorBalance"), (0x62, "ControlOsc2Range"),
    (0x64, "ControlOsc2FineWide"), (0x6A, "ControlCutoffFrequency"), (0x6C, "ControlResonance"),
    (0x74, "ControlFilterEnvDepth"), (0x7E, "ControlAmpLevel"), (0x100, "ControlAmpLfo1Depth"),
    (0x104, "ControlAmpEnvAttackTime"), (0x10A, "ControlAmpEnvReleaseTime"), (0x10C, "ControlToneControlBass"),
    (0x10E, "ControlToneControlTreble"), (0x110, "ControlMultiEffectsLevel"), (0x112, "ControlDelayTime"),
    (0x114, "ControlDelayFeedback"), (0x116, "ControlDelayLevel"), (0x118, "MorphBendAssign")
  ]

  /** The parameters of the first rows of a table, by name: their raw bytes. */
  function ParamsUpto(table: seq<(nat, string)>, blob: bytes): map<string, int> {
    if table == [] then map[]
    else
      var (off, name) := table[|table| - 1];
      var before := ParamsUpto(table[..|table| - 1], blob);
      if NAME_OFFSET + off >= |blob| then before else before[name := blob[NAME_OFFSET + off]]
  }

  /** decode_params, reduced to raw values as compact_params does. */
  method DecodeParams(table: seq<(nat, string)>, blob: bytes) returns (values: map<string, int>)
    ensures values == ParamsUpto(table, blob)
  {
    values := map[];
    for i := 0 to |table|
      invariant values == ParamsUpto(table[..i], blob)
    {
      assert table[..i + 1][..i] == table[..i];
      var (off, name) := table[i];
      var idx := NAME_OFFSET + off;
      if idx >= |blob| {
        continue;
      }
      values := values[name := blob[idx]];
    }
    assert table[..|table|] == table;
  }

  /** A parameter is decoded exactly when the blob reaches its byte, and its value is
      that byte, one past the documented offset. */
  lemma {:induction false} DecodedByte(table: seq<(nat, string)>, blob: bytes, k: nat)
    requires k < |table| && forall j :: 0 <= j < |table| && j != k ==> table[j].1 != table[k].1
    ensures var (off, name) := table[k];
            && (name in ParamsUpto(table, blob) <==> NAME_OFFSET + off < |blob|)
            && (name in ParamsUpto(table, blob) ==> ParamsUpto(table, blob)[name] == blob[NAME_OFFSET + off] as int)
    decreases |table|
  {
    var n := |table| - 1;
    if k < n {
      DecodedByte(table[..n], blob, k);
    } else {
      NotDecoded(table[..n], blob, table[k].1);
    }
  }

  lemma {:induction false} NotDecoded(table: seq<(nat, string)>, blob: bytes, name: string)
    requires forall j :: 0 <= j < |table| ==> table[j].1 != name
    ensures name !in ParamsUpto(table, blob)
    decreases |table|
  {
    if table != [] {
      NotDecoded(table[..|table| - 1], blob, name);
    }
  }
}
