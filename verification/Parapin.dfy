// parapin: driving single pins of a PC parallel port through three bit-masked,
// partly inverted registers (parapin.c, parapin.h).

// A C integer used as a bit mask is modelled as the set of its 1 bits:
// & is intersection, | is union, & ~ is difference.
module BitMask {

  type Bits = set<nat>

  predicate Between(lo: nat, k: nat, hi: nat) {
    lo <= k < hi
  }

  function Range(lo: nat, hi: nat): (r: Bits)
    ensures forall k: nat :: k in r <==> lo <= k < hi
  {
    set k: nat | lo <= k < hi && Between(lo, k, hi)
  }

  function Xor(a: Bits, b: Bits): (r: Bits)
    ensures forall k :: k in r <==> (k in a) != (k in b)
  {
    (a - b) + (b - a)
  }

  // a << n in 32 bits
  function Up(a: Bits, n: nat): (r: Bits)
    ensures forall k :: k in r <==> n <= k < 32 && k - n in a
  {
    set k | k in Range(n, 32) && k - n in a
  }

  // a >> n of a 32 bit value
  function Down(a: Bits, n: nat): (r: Bits)
    ensures forall k: nat :: k in r <==> k < 32 && k + n in a
  {
    set k | k in Range(0, 32) && k + n in a
  }
}

module PinModel {
  import opened BitMask

  // Bits 0..7: data register, 8..15: status register, 16..23: control register.
  const DATA_PINS: Bits := Range(0, 8)
  const STATUS_BITS: Bits := Range(8, 16)
  const CONTROL_BITS: Bits := Range(16, 24)
  const ALWAYS_INPUT_PINS: Bits := Range(11, 16)
  const SWITCHABLE_PINS: Bits := Range(16, 20)
  const IRQ_MODE: nat := 20
  const INPUT_MODE: nat := 21

  // The latches of the port in electrical levels, and the library's two masks.
  datatype Lp = Lp(latch: Bits, inputs: Bits, outputs: Bits)

  // After pin_init_internal: the registers are not touched.
  function Initial(latch: Bits): Lp {
    Lp(latch, ALWAYS_INPUT_PINS + {INPUT_MODE, IRQ_MODE}, {INPUT_MODE, IRQ_MODE})
  }

  // The electrical level of every pin. Data pins follow their latch if the
  // direction bit says output. Switchable pins are open collector: high only if
  // neither side pulls them low. `ext` is what the outside does.
  function Level(s: Lp, ext: Bits): Bits {
    (if INPUT_MODE in s.latch then ext * DATA_PINS else s.latch * DATA_PINS)
    + ext * STATUS_BITS
    + s.latch * ext * SWITCHABLE_PINS
    + s.latch * {INPUT_MODE, IRQ_MODE}
  }

  // What reading all three registers gives: two control bits mean nothing.
  function Read(s: Lp, ext: Bits): Bits {
    Level(s, ext) + ext * {22, 23}
  }

  function WriteData(s: Lp, v: Bits): Lp {
    s.(latch := (s.latch - DATA_PINS) + v * DATA_PINS)
  }

  // Inputs among the switchable pins are always written as 1.
  function WriteControl(s: Lp, v: Bits): Lp {
    s.(latch := (s.latch - CONTROL_BITS) + (v + s.inputs * SWITCHABLE_PINS) * Range(16, 22))
  }

  function SetPin(s: Lp, ext: Bits, pins: Bits): Lp {
    var p := pins * s.outputs;
    var t := if p * DATA_PINS != {} then WriteData(s, Read(s, ext) + p) else s;
    if p * CONTROL_BITS != {} then WriteControl(t, Read(t, ext) + p * CONTROL_BITS) else t
  }

  function ClearPin(s: Lp, ext: Bits, pins: Bits): Lp {
    var p := pins * s.outputs;
    var t := if p * DATA_PINS != {} then WriteData(s, Read(s, ext) - p) else s;
    if p * CONTROL_BITS != {} then WriteControl(t, Read(t, ext) - p * CONTROL_BITS) else t
  }

  function DataInputMode(s: Lp, ext: Bits): Lp {
    SetPin(s.(inputs := s.inputs + DATA_PINS, outputs := s.outputs - DATA_PINS), ext, {INPUT_MODE})
  }

  function DataOutputMode(s: Lp, ext: Bits): Lp {
    ClearPin(s.(inputs := s.inputs - DATA_PINS, outputs := s.outputs + DATA_PINS), ext, {INPUT_MODE})
  }

  function ControlInputMode(s: Lp, ext: Bits, pins: Bits): Lp {
    var u := s.(inputs := s.inputs + pins, outputs := s.outputs - pins);
    WriteControl(u, Read(u, ext))
  }

  function ControlOutputMode(s: Lp, ext: Bits, pins: Bits): Lp {
    var u := s.(inputs := s.inputs - pins, outputs := s.outputs + pins);
    WriteControl(u, Read(u, ext))
  }

  function InputMode(s: Lp, ext: Bits, pins: Bits): Lp {
    var t := if pins * DATA_PINS != {} then DataInputMode(s, ext) else s;
    if pins * SWITCHABLE_PINS != {} then ControlInputMode(t, ext, pins * SWITCHABLE_PINS) else t
  }

  function OutputMode(s: Lp, ext: Bits, pins: Bits): Lp {
    var t := if pins * DATA_PINS != {} then DataOutputMode(s, ext) else s;
    if pins * SWITCHABLE_PINS != {} then ControlOutputMode(t, ext, pins * SWITCHABLE_PINS) else t
  }

  // ------------------------------------------------------------ mode invariant

  // The masks fit together, and the latches fit the masks.
  predicate ModesConsistent(s: Lp) {
    && s.inputs * s.outputs * (DATA_PINS + SWITCHABLE_PINS) == {}
    && (s.inputs * DATA_PINS == {} || DATA_PINS <= s.inputs)
    && (s.outputs * DATA_PINS == {} || DATA_PINS <= s.outputs)
    && s.inputs - DATA_PINS - SWITCHABLE_PINS == ALWAYS_INPUT_PINS + {INPUT_MODE, IRQ_MODE}
    && s.outputs - DATA_PINS - SWITCHABLE_PINS == {INPUT_MODE, IRQ_MODE}
    && (0 in s.inputs ==> INPUT_MODE in s.latch)
    && (0 in s.outputs ==> INPUT_MODE !in s.latch)
    && s.inputs * SWITCHABLE_PINS <= s.latch
  }

  lemma InitialConsistent(latch: Bits)
    ensures ModesConsistent(Initial(latch))
  {
  }

  // Setting pins keeps the invariant exactly if it does not turn the data pins'
  // direction around behind the library's back.
  lemma SetPinKeepsModesIff(s: Lp, ext: Bits, pins: Bits)
    requires ModesConsistent(s)
    ensures ModesConsistent(SetPin(s, ext, pins)) <==> INPUT_MODE !in pins || 0 !in s.outputs
  {
    var p := pins * s.outputs;
    if INPUT_MODE in pins { assert INPUT_MODE in p * CONTROL_BITS; }
  }

  lemma ClearPinKeepsModesIff(s: Lp, ext: Bits, pins: Bits)
    requires ModesConsistent(s)
    ensures ModesConsistent(ClearPin(s, ext, pins)) <==> INPUT_MODE !in pins || 0 !in s.inputs
  {
    var p := pins * s.outputs;
    if INPUT_MODE in pins { assert INPUT_MODE in p * CONTROL_BITS; }
  }

  lemma DataInputModeKeepsModes(s: Lp, ext: Bits)
    requires ModesConsistent(s)
    ensures var t := DataInputMode(s, ext);
      && ModesConsistent(t) && t.latch * DATA_PINS == s.latch * DATA_PINS
      && t.inputs == s.inputs + DATA_PINS && t.outputs == s.outputs - DATA_PINS
  {
    var u := s.(inputs := s.inputs + DATA_PINS, outputs := s.outputs - DATA_PINS);
    var p := {INPUT_MODE} * u.outputs;
    assert INPUT_MODE in s.outputs - DATA_PINS - SWITCHABLE_PINS;
    assert p == {INPUT_MODE} && p * DATA_PINS == {} && INPUT_MODE in p * CONTROL_BITS;
    assert DataInputMode(s, ext) == WriteControl(u, Read(u, ext) + p * CONTROL_BITS);
  }

  lemma DataOutputModeKeepsModes(s: Lp, ext: Bits)
    requires ModesConsistent(s)
    ensures var t := DataOutputMode(s, ext);
      && ModesConsistent(t) && t.latch * DATA_PINS == s.latch * DATA_PINS
      && t.inputs == s.inputs - DATA_PINS && t.outputs == s.outputs + DATA_PINS
  {
    var u := s.(inputs := s.inputs - DATA_PINS, outputs := s.outputs + DATA_PINS);
    var p := {INPUT_MODE} * u.outputs;
    assert INPUT_MODE in s.outputs - DATA_PINS - SWITCHABLE_PINS;
    assert p == {INPUT_MODE} && p * DATA_PINS == {} && INPUT_MODE in p * CONTROL_BITS;
    assert DataOutputMode(s, ext) == WriteControl(u, Read(u, ext) - p * CONTROL_BITS);
  }

  lemma ControlModesKeepModes(s: Lp, ext: Bits, pins: Bits)
    requires ModesConsistent(s) && pins <= SWITCHABLE_PINS
    ensures var t := ControlInputMode(s, ext, pins);
      && ModesConsistent(t) && t.latch * DATA_PINS == s.latch * DATA_PINS
      && t.inputs == s.inputs + pins && t.outputs == s.outputs - pins
    ensures var t := ControlOutputMode(s, ext, pins);
      && ModesConsistent(t) && t.latch * DATA_PINS == s.latch * DATA_PINS
      && t.inputs == s.inputs - pins && t.outputs == s.outputs + pins
  {
  }

  // The pins a mode change is about: data pins come all together, pins that are
  // always inputs never.
  function Affected(pins: Bits): Bits {
    (if pins * DATA_PINS != {} then DATA_PINS else {}) + pins * SWITCHABLE_PINS
  }

  // Every mode change keeps the invariant and the data latch.
  lemma InputModeKeepsModes(s: Lp, ext: Bits, pins: Bits)
    requires ModesConsistent(s)
    ensures var t := InputMode(s, ext, pins);
      && ModesConsistent(t) && t.latch * DATA_PINS == s.latch * DATA_PINS
      && t.inputs == s.inputs + Affected(pins) && t.outputs == s.outputs - Affected(pins)
  {
    var t := if pins * DATA_PINS != {} then DataInputMode(s, ext) else s;
    DataInputModeKeepsModes(s, ext);
    ControlModesKeepModes(t, ext, pins * SWITCHABLE_PINS);
  }

  lemma OutputModeKeepsModes(s: Lp, ext: Bits, pins: Bits)
    requires ModesConsistent(s)
    ensures var t := OutputMode(s, ext, pins);
      && ModesConsistent(t) && t.latch * DATA_PINS == s.latch * DATA_PINS
      && t.inputs == s.inputs - Affected(pins) && t.outputs == s.outputs + Affected(pins)
  {
    var t := if pins * DATA_PINS != {} then DataOutputMode(s, ext) else s;
    DataOutputModeKeepsModes(s, ext);
    ControlModesKeepModes(t, ext, pins * SWITCHABLE_PINS);
  }

  // ------------------------------------------------------------- per-pin map

  // Nothing outside pulls the output pin low.
  predicate NotOverdriven(pin: nat, ext: Bits) {
    pin in SWITCHABLE_PINS ==> pin in ext
  }

  lemma OutputKinds(s: Lp, pin: nat)
    requires ModesConsistent(s) && pin in s.outputs
    ensures pin in DATA_PINS || pin in SWITCHABLE_PINS || pin == INPUT_MODE || pin == IRQ_MODE
    ensures pin in DATA_PINS + CONTROL_BITS
    ensures pin in DATA_PINS ==> INPUT_MODE !in s.latch && pin !in s.inputs
    ensures pin in SWITCHABLE_PINS ==> pin !in s.inputs
  {
    if pin !in DATA_PINS && pin !in SWITCHABLE_PINS {
      assert pin in s.outputs - DATA_PINS - SWITCHABLE_PINS;
    } else {
      assert 0 in DATA_PINS;
      assert pin !in s.inputs * s.outputs * (DATA_PINS + SWITCHABLE_PINS);
      assert pin in DATA_PINS ==> pin in s.outputs * DATA_PINS;
    }
  }

  // The map from output pins to driven levels: exactly the requested ones change.
  lemma SetPinPerPin(s: Lp, ext: Bits, pins: Bits, pin: nat)
    requires ModesConsistent(s) && NotOverdriven(pin, ext) && pin in s.outputs
    ensures pin in SetPin(s, ext, pins).latch <==> pin in pins || pin in s.latch
  {
    OutputKinds(s, pin);
    var p := pins * s.outputs;
    if pin in pins { assert pin in p * DATA_PINS || pin in p * CONTROL_BITS; }
  }

  lemma ClearPinPerPin(s: Lp, ext: Bits, pins: Bits, pin: nat)
    requires ModesConsistent(s) && NotOverdriven(pin, ext) && pin in s.outputs
    ensures pin in ClearPin(s, ext, pins).latch <==> pin !in pins && pin in s.latch
  {
    OutputKinds(s, pin);
    var p := pins * s.outputs;
    if pin in pins { assert pin in p * DATA_PINS || pin in p * CONTROL_BITS; }
  }

  // Levels of output pins are what their latches say.
  lemma OutputLevels(s: Lp, ext: Bits, pin: nat)
    requires ModesConsistent(s) && NotOverdriven(pin, ext) && pin in s.outputs
    ensures pin in Level(s, ext) <==> pin in s.latch
  {
    OutputKinds(s, pin);
  }

  // Although the data register is read before it is written, the data latch takes
  // nothing from outside.
  lemma DataLatchClosed(s: Lp, ext: Bits, pins: Bits)
    requires ModesConsistent(s)
    ensures SetPin(s, ext, pins).latch * DATA_PINS == (s.latch + pins * s.outputs) * DATA_PINS
    ensures ClearPin(s, ext, pins).latch * DATA_PINS == (s.latch - pins * s.outputs) * DATA_PINS
  {
    var p := pins * s.outputs;
    if p * DATA_PINS != {} {
      var pin :| pin in p * DATA_PINS;
      OutputKinds(s, pin);
    }
    forall k | k in DATA_PINS
      ensures k in SetPin(s, ext, pins).latch <==> k in s.latch || k in p
      ensures k in ClearPin(s, ext, pins).latch <==> k in s.latch && k !in p
    {
      assert k in p ==> k in p * DATA_PINS;
    }
  }

  // The control latch may: any write to the control register reads it first. A
  // switchable pin that is no input and not itself addressed keeps its latch exactly
  // unless the latch is high and the pin pulled low from outside.
  lemma UnaddressedPinCaptured(s: Lp, ext: Bits, pins: Bits, pin: nat)
    requires ModesConsistent(s) && pin in SWITCHABLE_PINS && pin !in s.inputs && pin !in pins * s.outputs
    requires pins * s.outputs * CONTROL_BITS != {}
    ensures (pin in SetPin(s, ext, pins).latch <==> pin in s.latch) <==> pin !in s.latch || pin in ext
    ensures (pin in ClearPin(s, ext, pins).latch <==> pin in s.latch) <==> pin !in s.latch || pin in ext
  {
  }

  // Turning an input into an output keeps the level it has.
  lemma OutputModeKeepsLevel(s: Lp, ext: Bits, pins: Bits, pin: nat)
    requires ModesConsistent(s) && pin in s.inputs * SWITCHABLE_PINS * pins
    ensures pin in OutputMode(s, ext, pins).latch <==> pin in Level(s, ext)
  {
    DataOutputModeKeepsModes(s, ext);
  }

  // Pins that are outputs and stay outputs do not notice a change of modes.
  lemma OutputModeLeavesOutputs(s: Lp, ext: Bits, pins: Bits, pin: nat)
    requires ModesConsistent(s) && NotOverdriven(pin, ext) && pin in s.outputs * (DATA_PINS + SWITCHABLE_PINS)
    ensures pin in OutputMode(s, ext, pins).latch <==> pin in s.latch
  {
    OutputKinds(s, pin);
  }

  lemma InputModeLeavesOutputs(s: Lp, ext: Bits, pins: Bits, pin: nat)
    requires ModesConsistent(s) && NotOverdriven(pin, ext) && pin in s.outputs * (DATA_PINS + SWITCHABLE_PINS)
    requires pin in InputMode(s, ext, pins).outputs
    ensures pin in InputMode(s, ext, pins).latch <==> pin in s.latch
  {
    OutputKinds(s, pin);
    InputModeKeepsModes(s, ext, pins);
    assert pin !in Affected(pins);
  }

  // ------------------------------------------------------------------- runs

  datatype Op =
    | Set(pins: Bits)
    | Clear(pins: Bits)
    | ToInput(pins: Bits)
    | ToOutput(pins: Bits)

  function Step(s: Lp, ext: Bits, op: Op): Lp {
    match op
    case Set(pins) => SetPin(s, ext, pins)
    case Clear(pins) => ClearPin(s, ext, pins)
    case ToInput(pins) => InputMode(s, ext, pins)
    case ToOutput(pins) => OutputMode(s, ext, pins)
  }

  // Operations, each with the outside levels it meets.
  function Run(s: Lp, steps: seq<(Bits, Op)>): Lp
    decreases |steps|
  {
    if steps == [] then s else Run(Step(s, steps[0].0, steps[0].1), steps[1..])
  }

  // The caller leaves the direction bit to the mode functions.
  predicate LeavesDirection(steps: seq<(Bits, Op)>) {
    forall k :: 0 <= k < |steps| && (steps[k].1.Set? || steps[k].1.Clear?) ==> INPUT_MODE !in steps[k].1.pins
  }

  lemma StepKeepsModes(s: Lp, ext: Bits, op: Op)
    requires ModesConsistent(s) && (op.Set? || op.Clear? ==> INPUT_MODE !in op.pins)
    ensures ModesConsistent(Step(s, ext, op))
  {
    match op
    case Set(pins) => SetPinKeepsModesIff(s, ext, pins);
    case Clear(pins) => ClearPinKeepsModesIff(s, ext, pins);
    case ToInput(pins) => InputModeKeepsModes(s, ext, pins);
    case ToOutput(pins) => OutputModeKeepsModes(s, ext, pins);
  }

  lemma {:induction false} RunKeepsModes(s: Lp, steps: seq<(Bits, Op)>)
    requires ModesConsistent(s) && LeavesDirection(steps)
    ensures ModesConsistent(Run(s, steps))
    decreases |steps|
  {
    if steps != [] {
      StepKeepsModes(s, steps[0].0, steps[0].1);
      RunKeepsModes(Step(s, steps[0].0, steps[0].1), steps[1..]);
    }
  }

  // ---------------------------------------------------- the pins by their bits

  // The two pseudo pins are read and written at any time.
  lemma PseudoPins(s: Lp, ext: Bits, k: nat)
    requires ModesConsistent(s) && (k == 20 || k == 21)
    ensures k in s.inputs && k in s.outputs && (k in Level(s, ext) <==> k in s.latch)
    ensures k in SetPin(s, ext, {k}).latch && k !in ClearPin(s, ext, {k}).latch
  {
    assert k in s.inputs - DATA_PINS - SWITCHABLE_PINS;
    assert k in s.outputs - DATA_PINS - SWITCHABLE_PINS;
    var p := {k} * s.outputs;
    assert k in p * CONTROL_BITS;
  }

  // Pins 10 to 13 and 15 can always be read and never be driven; the others neither,
  // until their mode is set.
  lemma StatusPinReads(s: Lp, ext: Bits, k: nat)
    requires ModesConsistent(s) && 11 <= k < 16
    ensures k in s.inputs && k !in s.outputs && (k in Level(s, ext) <==> k in ext)
  {
    assert k in s.inputs - DATA_PINS - SWITCHABLE_PINS;
    assert k !in s.outputs - DATA_PINS - SWITCHABLE_PINS;
  }

  lemma StatusPinsThroughout(latch: Bits, steps: seq<(Bits, Op)>, k: nat)
    requires LeavesDirection(steps) && 11 <= k < 16
    ensures k in Run(Initial(latch), steps).inputs && k !in Run(Initial(latch), steps).outputs
  {
    RunKeepsModes(Initial(latch), steps);
    StatusPinReads(Run(Initial(latch), steps), {}, k);
  }

  lemma InitiallyUnconfigured(latch: Bits, k: nat)
    requires k < 8 || 16 <= k < 20
    ensures k !in Initial(latch).inputs && k !in Initial(latch).outputs
  {
  }

  // A mode change reaches the named switchable pins, and all data pins if it names one.
  predicate Reaches(pins: Bits, k: nat) {
    (16 <= k < 20 && k in pins) || (k < 8 && exists j :: 0 <= j < 8 && j in pins)
  }

  // After pin_input_mode such a pin is read as the outside drives it.
  lemma InputPinReads(s: Lp, now: Bits, pins: Bits, k: nat, ext: Bits)
    requires ModesConsistent(s) && Reaches(pins, k)
    ensures var t := InputMode(s, now, pins);
      k in t.inputs && k !in t.outputs && (k in Level(t, ext) <==> k in ext)
  {
    InputModeKeepsModes(s, now, pins);
    if k < 8 {
      var j :| 0 <= j < 8 && j in pins;
      assert j in pins * DATA_PINS;
    }
    var t := InputMode(s, now, pins);
    assert k in Affected(pins) && k in t.inputs;
    if k >= 16 {
      assert k in t.inputs * SWITCHABLE_PINS;
    } else {
      assert k in t.inputs * DATA_PINS;
      assert 0 in t.inputs;
    }
  }

  // After pin_output_mode set_pin raises it, as far as nothing outside pulls it low, and
  // clear_pin lowers it.
  lemma OutputPinDrives(s: Lp, now: Bits, pins: Bits, k: nat, ext: Bits)
    requires ModesConsistent(s) && Reaches(pins, k) && NotOverdriven(k, ext)
    ensures var t := OutputMode(s, now, pins);
      && k in t.outputs && k !in t.inputs
      && k in Level(SetPin(t, ext, {k}), ext) && k !in Level(ClearPin(t, ext, {k}), ext)
  {
    OutputModeKeepsModes(s, now, pins);
    if k < 8 {
      var j :| 0 <= j < 8 && j in pins;
      assert j in pins * DATA_PINS;
    }
    var t := OutputMode(s, now, pins);
    assert k in Affected(pins) && k in t.outputs;
    SetPinPerPin(t, ext, {k}, k);
    ClearPinPerPin(t, ext, {k}, k);
    SetPinKeepsModesIff(t, ext, {k});
    ClearPinKeepsModesIff(t, ext, {k});
    OutputLevels(SetPin(t, ext, {k}), ext, k);
    OutputLevels(ClearPin(t, ext, {k}), ext, k);
  }

  // In every run from pin_init_internal on, an output pin drives the level last asked
  // for: `wanted` follows the set and clear calls that reached the pin.
  function Wanted(s: Lp, pin: nat, steps: seq<(Bits, Op)>): bool
    decreases |steps|
  {
    if steps == [] then pin in s.latch
    else
      var n := |steps| - 1;
      var (_, op) := steps[n];
      if op.Set? && pin in op.pins then true
      else if op.Clear? && pin in op.pins then false
      else Wanted(s, pin, steps[..n])
  }

  // The pin is an output all the time, and not overdriven at any step.
  ghost predicate DrivenThroughout(s: Lp, pin: nat, steps: seq<(Bits, Op)>) {
    && pin in DATA_PINS + SWITCHABLE_PINS
    && (forall k :: 0 <= k <= |steps| ==> pin in Run(s, steps[..k]).outputs)
    && forall k :: 0 <= k < |steps| ==> NotOverdriven(pin, steps[k].0)
  }

  lemma {:induction false} RunAppend(s: Lp, steps: seq<(Bits, Op)>)
    requires steps != []
    ensures var n := |steps| - 1;
      Run(s, steps) == Step(Run(s, steps[..n]), steps[n].0, steps[n].1)
    decreases |steps|
  {
    if |steps| > 1 {
      RunAppend(Step(s, steps[0].0, steps[0].1), steps[1..]);
      assert steps[1..][..|steps| - 2] == steps[..|steps| - 1][1..];
    }
  }

  lemma {:induction false} DrivesWhatIsWanted(s: Lp, pin: nat, steps: seq<(Bits, Op)>)
    requires ModesConsistent(s) && LeavesDirection(steps) && DrivenThroughout(s, pin, steps)
    ensures pin in Run(s, steps).latch <==> Wanted(s, pin, steps)
    decreases |steps|
  {
    if steps != [] {
      var n := |steps| - 1;
      var before := steps[..n];
      assert forall k :: 0 <= k <= n ==> before[..k] == steps[..k];
      DrivesWhatIsWanted(s, pin, before);
      RunKeepsModes(s, before);
      RunAppend(s, steps);
      var t := Run(s, before);
      var (ext, op) := steps[n];
      assert pin in t.outputs && pin in Run(s, steps[..n + 1]).outputs && steps[..n + 1] == steps;
      match op
      case Set(pins) => SetPinPerPin(t, ext, pins, pin);
      case Clear(pins) => ClearPinPerPin(t, ext, pins, pin);
      case ToInput(pins) => InputModeLeavesOutputs(t, ext, pins, pin);
      case ToOutput(pins) => OutputModeLeavesOutputs(t, ext, pins, pin);
    }
  }
}

// The library itself: three port registers, their inversion masks and the static
// variables of parapin.c.
module Parapin {
  import opened BitMask
  import opened PinModel

  // lp_invert_masks
  function InvertMask(regnum: nat): Bits {
    if regnum == 1 then {7} else if regnum == 2 then {0, 1, 3} else {}
  }

  // Register bits in electrical levels.
  function Electrical(data: Bits, control: Bits, inputs: Bits, outputs: Bits): Lp {
    Lp(data + Up(Xor(control, {0, 1, 3}) * Range(0, 6), 16), inputs, outputs)
  }

  // What the hardware returns for a register while the outside drives `ext`. The port
  // inverts pin 11 and pins 1, 14 and 17.
  function Inb(data: Bits, control: Bits, regnum: nat, ext: Bits): Bits {
    if regnum == 0 then if 5 in control then ext * DATA_PINS else data
    else if regnum == 1 then Xor(Down(ext * STATUS_BITS, 8), {7})
    else
      Xor(Xor(control, {0, 1, 3}) * Down(ext * SWITCHABLE_PINS, 16), {0, 1, 3})
      + control * {4, 5} + Down(ext, 16) * {6, 7}
  }

  class Library {
    // the port's two latches, as register bits
    var data: Bits
    var control: Bits
    // lp_register, lp_input_pins, lp_output_pins
    const lpRegister: array<Bits>
    var lpInputPins: Bits
    var lpOutputPins: Bits

    ghost predicate Valid()
      reads this
    {
      lpRegister.Length == 3 && data <= Range(0, 8) && control <= Range(0, 6) && lpInputPins <= Range(0, 22)
    }

    ghost function State(): Lp
      reads this
    {
      Electrical(data, control, lpInputPins, lpOutputPins)
    }

    // pin_init_internal on a port left as it was found
    constructor (data: Bits, control: Bits)
      requires data <= Range(0, 8) && control <= Range(0, 6)
      ensures Valid() && fresh(lpRegister) && this.data == data && this.control == control
      ensures State() == Initial(State().latch)
      ensures ModesConsistent(State())
    {
      this.data := data;
      this.control := control;
      lpRegister := new Bits[3](_ => {});
      lpOutputPins := {INPUT_MODE, IRQ_MODE};
      lpInputPins := ALWAYS_INPUT_PINS + {INPUT_MODE, IRQ_MODE};
      new;
      InitialConsistent(State().latch);
    }

    method Outb(value: Bits, regnum: nat)
      requires Valid() && regnum in {0, 2}
      modifies this`data, this`control
      ensures Valid()
      ensures data == if regnum == 0 then value * Range(0, 8) else old(data)
      ensures control == if regnum == 2 then value * Range(0, 6) else old(control)
    {
      if regnum == 0 {
        data := value * Range(0, 8);
      } else {
        control := value * Range(0, 6);
      }
    }

    // Read and un-invert: the electrical levels of the register's pins.
    method ReadRegister(regnum: nat, ext: Bits) returns (value: Bits)
      requires Valid() && regnum < 3
      modifies lpRegister
      ensures lpRegister[regnum] == value
      ensures value == Down(Read(State(), ext) * Range(8 * regnum, 8 * regnum + 8), 8 * regnum)
    {
      value := Xor(Inb(data, control, regnum, ext), InvertMask(regnum));
      InbLevels(data, control, regnum, ext, State());
      lpRegister[regnum] := value;
    }

    method WriteRegister(value: Bits, regnum: nat)
      requires Valid() && regnum in {0, 2}
      modifies this`data, this`control, lpRegister
      ensures Valid() && lpRegister[regnum] == value
      ensures State() == old(State()).(latch :=
        (old(State()).latch - Range(8 * regnum, 8 * regnum + 8)) + Up(value * (if regnum == 0 then Range(0, 8) else Range(0, 6)), 8 * regnum))
    {
      lpRegister[regnum] := value;
      Outb(Xor(value, InvertMask(regnum)), regnum);
      assert State().latch ==
        (old(State()).latch - Range(8 * regnum, 8 * regnum + 8)) + Up(value * (if regnum == 0 then Range(0, 8) else Range(0, 6)), 8 * regnum);
    }

    method SetDatareg(pins: Bits, ext: Bits)
      requires Valid() && pins <= DATA_PINS
      modifies this`data, this`control, lpRegister
      ensures Valid() && State() == old(WriteData(State(), Read(State(), ext) + pins))
    {
      var read := ReadRegister(0, ext);
      WriteRegister(read + pins, 0);
      assert State().latch == old(WriteData(State(), Read(State(), ext) + pins)).latch;
    }

    method ClearDatareg(pins: Bits, ext: Bits)
      requires Valid() && pins <= DATA_PINS
      modifies this`data, this`control, lpRegister
      ensures Valid() && State() == old(WriteData(State(), Read(State(), ext) - pins))
    {
      var read := ReadRegister(0, ext);
      WriteRegister(read - pins, 0);
      assert State().latch == old(WriteData(State(), Read(State(), ext) - pins)).latch;
    }

    method SetControlreg(pins: Bits, ext: Bits)
      requires Valid() && pins <= Range(0, 8)
      modifies this`data, this`control, lpRegister
      ensures Valid() && State() == old(WriteControl(State(), Read(State(), ext) + Up(pins, 16)))
    {
      var _ := ReadRegister(2, ext);
      lpRegister[2] := lpRegister[2] + pins;
      lpRegister[2] := lpRegister[2] + Range(0, 4) * Down(lpInputPins * SWITCHABLE_PINS, 16);
      WriteRegister(lpRegister[2], 2);
      assert State().latch == old(WriteControl(State(), Read(State(), ext) + Up(pins, 16))).latch;
    }

    method ClearControlreg(pins: Bits, ext: Bits)
      requires Valid() && pins <= Range(0, 8)
      modifies this`data, this`control, lpRegister
      ensures Valid() && State() == old(WriteControl(State(), Read(State(), ext) - Up(pins, 16)))
    {
      var _ := ReadRegister(2, ext);
      lpRegister[2] := lpRegister[2] - pins;
      lpRegister[2] := lpRegister[2] + Range(0, 4) * Down(lpInputPins * SWITCHABLE_PINS, 16);
      WriteRegister(lpRegister[2], 2);
      assert State().latch == old(WriteControl(State(), Read(State(), ext) - Up(pins, 16))).latch;
    }

    method SetPin(pins: Bits, ext: Bits)
      requires Valid()
      modifies this`data, this`control, lpRegister
      ensures Valid() && State() == PinModel.SetPin(old(State()), ext, pins)
    {
      var outs := pins * lpOutputPins;
      if outs * DATA_PINS != {} {
        SetDatareg(outs * DATA_PINS, ext);
        DataPart(old(State()), ext, outs);
      }
      if outs * CONTROL_BITS != {} {
        SetControlreg(Down(outs * CONTROL_BITS, 16), ext);
        UpDown(outs * CONTROL_BITS, 16);
      }
    }

    method ClearPin(pins: Bits, ext: Bits)
      requires Valid()
      modifies this`data, this`control, lpRegister
      ensures Valid() && State() == PinModel.ClearPin(old(State()), ext, pins)
    {
      var outs := pins * lpOutputPins;
      if outs * DATA_PINS != {} {
        ClearDatareg(outs * DATA_PINS, ext);
        DataPart(old(State()), ext, outs);
      }
      if outs * CONTROL_BITS != {} {
        ClearControlreg(Down(outs * CONTROL_BITS, 16), ext);
        UpDown(outs * CONTROL_BITS, 16);
      }
    }

    // Exactly the electrically high pins among those requested and readable.
    method PinIsSet(pins: Bits, ext: Bits) returns (result: Bits)
      requires Valid()
      modifies lpRegister
      ensures result == Level(State(), ext) * (pins * lpInputPins)
      ensures ModesConsistent(State()) ==> forall k :: 11 <= k < 16 ==> (k in result <==> k in pins && k in ext)
    {
      result := {};
      var ins := pins * lpInputPins;
      ghost var read := Read(State(), ext);
      if ins * DATA_PINS != {} {
        var value := ReadRegister(0, ext);
        result := result + value * (ins * DATA_PINS);
        Window(read, ins, 0);
      }
      assert result == read * ins * DATA_PINS;
      if ins * STATUS_BITS != {} {
        var value := ReadRegister(1, ext);
        result := result + Up(value * Down(ins * STATUS_BITS, 8), 8);
        Window(read, ins, 8);
      }
      assert result == read * ins * DATA_PINS + read * ins * STATUS_BITS;
      if ins * CONTROL_BITS != {} {
        var value := ReadRegister(2, ext);
        result := result + Up(value * Down(ins * CONTROL_BITS, 16), 16);
        Window(read, ins, 16);
      }
      assert result == read * ins * DATA_PINS + read * ins * STATUS_BITS + read * ins * CONTROL_BITS;
      ReadableLevels(State(), ext, ins);
      if ModesConsistent(State()) {
        forall k | 11 <= k < 16
          ensures k in result <==> k in pins && k in ext
        {
          StatusPinReads(State(), ext, k);
        }
      }
    }

    method DatalineInputMode(ext: Bits)
      requires Valid()
      modifies this, lpRegister
      ensures Valid() && State() == DataInputMode(old(State()), ext)
    {
      lpInputPins := lpInputPins + DATA_PINS;
      lpOutputPins := lpOutputPins - DATA_PINS;
      SetPin({INPUT_MODE}, ext);
    }

    method DatalineOutputMode(ext: Bits)
      requires Valid()
      modifies this, lpRegister
      ensures Valid() && State() == DataOutputMode(old(State()), ext)
    {
      lpInputPins := lpInputPins - DATA_PINS;
      lpOutputPins := lpOutputPins + DATA_PINS;
      ClearPin({INPUT_MODE}, ext);
    }

    method ControlregInputMode(pins: Bits, ext: Bits)
      requires Valid() && pins <= SWITCHABLE_PINS
      modifies this, lpRegister
      ensures Valid() && State() == ControlInputMode(old(State()), ext, pins)
    {
      lpInputPins := lpInputPins + pins;
      lpOutputPins := lpOutputPins - pins;
      ghost var u := State();
      SetControlreg({}, ext);
      assert Read(u, ext) + Up({}, 16) == Read(u, ext);
    }

    method ControlregOutputMode(pins: Bits, ext: Bits)
      requires Valid() && pins <= SWITCHABLE_PINS
      modifies this, lpRegister
      ensures Valid() && State() == ControlOutputMode(old(State()), ext, pins)
    {
      lpInputPins := lpInputPins - pins;
      lpOutputPins := lpOutputPins + pins;
      ghost var u := State();
      SetControlreg({}, ext);
      assert Read(u, ext) + Up({}, 16) == Read(u, ext);
    }

    method PinInputMode(pins: Bits, ext: Bits)
      requires Valid()
      modifies this, lpRegister
      ensures Valid() && State() == InputMode(old(State()), ext, pins)
    {
      if pins * DATA_PINS != {} {
        DatalineInputMode(ext);
      }
      if pins * SWITCHABLE_PINS != {} {
        ControlregInputMode(pins * SWITCHABLE_PINS, ext);
      }
    }

    method PinOutputMode(pins: Bits, ext: Bits)
      requires Valid()
      modifies this, lpRegister
      ensures Valid() && State() == OutputMode(old(State()), ext, pins)
    {
      if pins * DATA_PINS != {} {
        DatalineOutputMode(ext);
      }
      if pins * SWITCHABLE_PINS != {} {
        ControlregOutputMode(pins * SWITCHABLE_PINS, ext);
      }
    }
  }

  // Undoing the inversion leaves the electrical levels.
  predicate ReadsBack(data: Bits, control: Bits, regnum: nat, ext: Bits, s: Lp) {
    Xor(Inb(data, control, regnum, ext), InvertMask(regnum))
    == Down(Read(s, ext) * Range(8 * regnum, 8 * regnum + 8), 8 * regnum)
  }

  lemma DataLevels(data: Bits, control: Bits, ext: Bits, s: Lp)
    requires data <= Range(0, 8) && s == Electrical(data, control, s.inputs, s.outputs)
    ensures ReadsBack(data, control, 0, ext, s)
  {
    var level := if 5 in control then ext * DATA_PINS else data;
    assert (5 in control) == (INPUT_MODE in s.latch);
    assert Read(s, ext) * Range(0, 8) == level;
    assert Xor(level, {}) == level == Down(level, 0);
  }

  lemma StatusLevels(data: Bits, control: Bits, ext: Bits, s: Lp)
    ensures ReadsBack(data, control, 1, ext, s)
  {
    assert Read(s, ext) * Range(8, 16) == ext * STATUS_BITS;
  }

  lemma ControlLevels(data: Bits, control: Bits, ext: Bits, s: Lp)
    requires data <= Range(0, 8) && control <= Range(0, 6) && s == Electrical(data, control, s.inputs, s.outputs)
    ensures ReadsBack(data, control, 2, ext, s)
  {
    var pins := Xor(control, {0, 1, 3});
    var level := pins * Down(ext * SWITCHABLE_PINS, 16) + pins * {4, 5} + Down(ext, 16) * {6, 7};
    assert Read(s, ext) * Range(16, 24)
      == s.latch * ext * SWITCHABLE_PINS + s.latch * {INPUT_MODE, IRQ_MODE} + ext * {22, 23};
    assert level == Down(Read(s, ext) * Range(16, 24), 16);
  }

  lemma InbLevels(data: Bits, control: Bits, regnum: nat, ext: Bits, s: Lp)
    requires data <= Range(0, 8) && control <= Range(0, 6) && regnum < 3
    requires s == Electrical(data, control, s.inputs, s.outputs)
    ensures ReadsBack(data, control, regnum, ext, s)
  {
    match regnum
    case 0 => DataLevels(data, control, ext, s);
    case 1 => StatusLevels(data, control, ext, s);
    case 2 => ControlLevels(data, control, ext, s);
  }

  // Masking in register position or in pin position is the same.
  lemma Window(read: Bits, ins: Bits, n: nat)
    requires n <= 16
    ensures var w := Range(n, n + 8);
      Up(Down(read * w, n) * Down(ins * w, n), n) == read * ins * w
    ensures n == 0 ==> Down(read * Range(0, 8), 0) * (ins * DATA_PINS) == read * ins * DATA_PINS
  {
  }

  lemma ReadableLevels(s: Lp, ext: Bits, ins: Bits)
    requires ins <= Range(0, 22)
    ensures var read := Read(s, ext);
      read * ins * DATA_PINS + read * ins * STATUS_BITS + read * ins * CONTROL_BITS == Level(s, ext) * ins
  {
  }

  // Only the data register's bits of a written value matter.
  lemma DataPart(s: Lp, ext: Bits, pins: Bits)
    ensures WriteData(s, Read(s, ext) + pins * DATA_PINS) == WriteData(s, Read(s, ext) + pins)
    ensures WriteData(s, Read(s, ext) - pins * DATA_PINS) == WriteData(s, Read(s, ext) - pins)
  {
    assert (Read(s, ext) + pins * DATA_PINS) * DATA_PINS == (Read(s, ext) + pins) * DATA_PINS;
    assert (Read(s, ext) - pins * DATA_PINS) * DATA_PINS == (Read(s, ext) - pins) * DATA_PINS;
  }

  lemma UpDown(a: Bits, n: nat)
    requires a <= Range(n, 32)
    ensures Up(Down(a, n), n) == a
  {
  }
}
