/** The dashboard's held state and its simulated telemetry: the literal
    signal lists it starts from, and the interval callback that flips
    signals. The random draws are parameters. */
module Dashboard {
  import opened Signals
  import Aggregator
  import opened Seqs

  // ---------------------------------------------------------------------
  // The flip map of one tick
  // ---------------------------------------------------------------------

  function Flipped(s: Signal): Signal {
    s.(currentState := !s.currentState)
  }

  /** Signal i is negated when the draw for it came out below the threshold,
      here when `mask[i]` holds; a missing draw leaves it as it is. */
  predicate Selected(mask: seq<bool>, i: int) {
    0 <= i < |mask| && mask[i]
  }

  /** The specification of `prev.map(s => draw ? {...s, currentState: !s.currentState} : s)`. */
  function Flip(signals: seq<Signal>, mask: seq<bool>): seq<Signal> {
    seq(|signals|, i requires 0 <= i < |signals| =>
      if Selected(mask, i) then Flipped(signals[i]) else signals[i])
  }

  /** The map itself, one signal at a time. */
  method FlipSignals(signals: seq<Signal>, mask: seq<bool>) returns (r: seq<Signal>)
    ensures r == Flip(signals, mask)
  {
    r := [];
    for i := 0 to |signals|
      invariant |r| == i
      invariant forall j :: 0 <= j < i ==> r[j] == Flip(signals, mask)[j]
    {
      var s := signals[i];
      if i < |mask| && mask[i] {
        s := Flipped(s);
      }
      r := r + [s];
    }
  }

  /** A tick keeps every signal's identity and text and changes only
      `currentState`, exactly where the mask selects it. */
  lemma FlipKeepsIdentity(signals: seq<Signal>, mask: seq<bool>, i: int)
    requires 0 <= i < |signals|
    ensures |Flip(signals, mask)| == |signals|
    ensures var s, t := signals[i], Flip(signals, mask)[i];
            && t.id == s.id && t.labelText == s.labelText
            && t.category == s.category && t.errorMessage == s.errorMessage
            && (t.currentState <==> (s.currentState != Selected(mask, i)))
  {
  }

  /** The same mask applied twice restores the signals. */
  lemma FlipTwice(signals: seq<Signal>, mask: seq<bool>)
    ensures Flip(Flip(signals, mask), mask) == signals
  {
    var once := Flip(signals, mask);
    var twice := Flip(once, mask);
    assert |twice| == |signals|;
    forall i | 0 <= i < |signals| ensures twice[i] == signals[i] {
      FlipKeepsIdentity(signals, mask, i);
      FlipKeepsIdentity(once, mask, i);
    }
  }

  /** The random draws of one interval firing: whether anything changes
      (`Math.random() < 0.1`), which list (`< 0.5` picks the inputs) and the
      per-signal flips (`< 0.05`). */
  datatype TickDraw = TickDraw(fires: bool, pickInputs: bool, mask: seq<bool>)

  predicate SameIds(a: seq<Signal>, b: seq<Signal>) {
    |a| == |b| && forall i :: 0 <= i < |a| ==> a[i].id == b[i].id
  }

  /** Flipping never renames a signal. */
  lemma FlipKeepsIds(signals: seq<Signal>, mask: seq<bool>)
    ensures SameIds(Flip(signals, mask), signals)
  {
  }

  /** Flipping never removes the buzzer output. */
  lemma FlipKeepsBuzzer(signals: seq<Signal>, mask: seq<bool>)
    requires Aggregator.HasBuzzer(signals)
    ensures Aggregator.HasBuzzer(Flip(signals, mask))
  {
    var k :| 0 <= k < |signals| && signals[k].id == BUZZER_ID;
    assert Flip(signals, mask)[k].id == BUZZER_ID;
  }

  /** Both lists after one interval firing: the chosen list is replaced by
      its flip when the draw fires, the other is kept. */
  function AfterTick(ins: seq<Signal>, outs: seq<Signal>, draw: TickDraw): (seq<Signal>, seq<Signal>) {
    if draw.fires && draw.pickInputs then (Flip(ins, draw.mask), outs)
    else if draw.fires then (ins, Flip(outs, draw.mask))
    else (ins, outs)
  }

  /** Both lists after the firings `draws`, in order. However many firings
      there are, every signal keeps its id at its index, so no list grows,
      shrinks or loses a signal. */
  function AfterTicks(ins: seq<Signal>, outs: seq<Signal>, draws: seq<TickDraw>): (r: (seq<Signal>, seq<Signal>))
    ensures SameIds(r.0, ins) && SameIds(r.1, outs)
    decreases |draws|
  {
    if draws == [] then (ins, outs)
    else
      var before := AfterTicks(ins, outs, draws[..|draws| - 1]);
      var last := draws[|draws| - 1];
      FlipKeepsIds(before.0, last.mask);
      FlipKeepsIds(before.1, last.mask);
      AfterTick(before.0, before.1, last)
  }

  // ---------------------------------------------------------------------
  // The literal data the dashboard starts from
  // ---------------------------------------------------------------------

  function InitialFlags(): Flags {
    Flags(isOnline := true, isConnectedToPLC := true, isTimeout := false,
          isPlatformSafe := true, isWheelbaseSet := true, isChargerSafe := true,
          isStageSafe := true, isPodSafe := true)
  }

  function InitialInputs(): seq<Signal> {
    [ Signal("e-stop-0", "E-Stop 0", true, "Emergency Systems", None),
      Signal("e-stop-1", "E-Stop 1", true, "Emergency Systems", None),
      Signal("door-interlock-0", "Door Interlock 0", true, "Interlocks", None),
      Signal("door-interlock-1", "Door Interlock 1", true, "Interlocks", None),
      Signal("e-panel-interlock", "E-Panel Interlock", true, "Interlocks", None),
      Signal("flood-warning-sensor", "Flood Warning Sensor", true, "Environmental Sensors", None),
      Signal("water-tank-sensor-0", "Water Tank Sensor 0", true, "Environmental Sensors", None),
      Signal("water-tank-sensor-1", "Water Tank Sensor 1", true, "Environmental Sensors", None),
      Signal("fire-alarm-sensor", "Fire Alarm Sensor", true, "Environmental Sensors", None),
      Signal("hold-to-run", "Hold To Run", false, "Control Systems", None),
      Signal("over-voltage-protection-0", "Over Voltage Protection 0", true, "Power Protection", None),
      Signal("over-voltage-protection-1", "Over Voltage Protection 1", true, "Power Protection", None),
      Signal("isolation-detection-charger-0", "Isolation Detection Charger 0", true, "Isolation Detection", None),
      Signal("isolation-detection-charger-1", "Isolation Detection Charger 1", true, "Isolation Detection", None),
      Signal("isolation-detection-charger-2", "Isolation Detection Charger 2", true, "Isolation Detection", None),
      Signal("isolation-detection-charger-3", "Isolation Detection Charger 3", true, "Isolation Detection", None) ]
  }

  function InitialOutputs(): (r: seq<Signal>)
    ensures Aggregator.HasBuzzer(r)
  {
    var r := [
      Signal("stage-contactor", "Stage Contactor", true, "Contactors", None),
      Signal("pod-contactor", "Pod Contactor", true, "Contactors", None),
      Signal("motion-contactor", "Motion Contactor", true, "Contactors", None),
      Signal("charger-contactor", "Charger Contactor", true, "Contactors", None),
      Signal("isolation-fault-buzzer", "Isolation Fault Buzzer", false, "Alarms", None) ];
    assert r[4].id == BUZZER_ID;
    r
  }

  /** The literal state is the all-healthy case with a silent buzzer. */
  lemma InitialFaults(f: Flags, inputs: seq<Signal>, outputs: seq<Signal>)
    requires f == InitialFlags() && inputs == InitialInputs() && outputs == InitialOutputs()
    ensures Aggregator.Failed(Aggregator.BuildConditions(f, inputs, outputs))
            == [Condition("Isolation Fault Buzzer", false, "Isolation Fault Buzzer Off")]
  {
    assert "Isolation Fault Buzzer" + " Off" == "Isolation Fault Buzzer Off";
    assert forall i :: 0 <= i < |inputs| ==> Aggregator.InputStatus(inputs[i]);
    Aggregator.SilentBuzzerIsTheOnlyFault(f, inputs, outputs, 4);
    assert outputs[4].labelText == "Isolation Fault Buzzer";
  }

  // ---------------------------------------------------------------------
  // The dashboard's state
  // ---------------------------------------------------------------------

  /** The state the dashboard holds between renders. Every derived value
      (the conditions, the failed list, the safe flag) is a function of it,
      recomputed on every read. */
  class Dashboard {
    var flags: Flags
    var inputSignals: seq<Signal>
    var outputSignals: seq<Signal>

    /** As mounted, the dashboard shows exactly one active fault, the silent
        buzzer read at its raw state ("Isolation Fault Buzzer Off"), and so
        reports "System Fault" although every other signal is healthy. */
    constructor ()
      ensures flags == InitialFlags()
      ensures inputSignals == InitialInputs()
      ensures outputSignals == InitialOutputs()
      ensures Aggregator.HasBuzzer(outputSignals)
      ensures Aggregator.Failed(SystemConditions())
              == [Condition("Isolation Fault Buzzer", false, "Isolation Fault Buzzer Off")]
    {
      flags := InitialFlags();
      inputSignals := InitialInputs();
      outputSignals := InitialOutputs();
      new;
      InitialFaults(flags, inputSignals, outputSignals);
    }

    function SystemConditions(): seq<Condition>
      reads this
    {
      Aggregator.BuildConditions(flags, inputSignals, outputSignals)
    }

    predicate IsSystemSafe()
      reads this
    {
      Aggregator.IsSystemSafe(SystemConditions())
    }

    /** One firing of the interval callback. Only the chosen list is
        replaced, by its flip map; nothing else changes. */
    method Tick(draw: TickDraw)
      modifies this
      ensures flags == old(flags)
      ensures inputSignals ==
                if draw.fires && draw.pickInputs then Flip(old(inputSignals), draw.mask)
                else old(inputSignals)
      ensures outputSignals ==
                if draw.fires && !draw.pickInputs then Flip(old(outputSignals), draw.mask)
                else old(outputSignals)
    {
      if draw.fires {
        if draw.pickInputs {
          inputSignals := FlipSignals(inputSignals, draw.mask);
        } else {
          outputSignals := FlipSignals(outputSignals, draw.mask);
        }
      }
    }
  }

  /** The dashboard as mounted, followed by any number of interval firings
      with any draws: the buzzer output is never removed, so the dashboard
      never reports the system safe. */
  method Run(draws: seq<TickDraw>) returns (d: Dashboard)
    ensures d.flags == InitialFlags()
    ensures (d.inputSignals, d.outputSignals) == AfterTicks(InitialInputs(), InitialOutputs(), draws)
    ensures Aggregator.HasBuzzer(d.outputSignals)
    ensures !d.IsSystemSafe()
  {
    d := new Dashboard();
    RunTicks(d, draws);
  }

  /** Any number of interval firings on a dashboard whose outputs include
      the buzzer: the flags are kept, both lists are the successive flips,
      the buzzer stays, and the system is reported unsafe. */
  method RunTicks(d: Dashboard, draws: seq<TickDraw>)
    requires Aggregator.HasBuzzer(d.outputSignals)
    modifies d
    ensures d.flags == old(d.flags)
    ensures (d.inputSignals, d.outputSignals)
            == AfterTicks(old(d.inputSignals), old(d.outputSignals), draws)
    ensures Aggregator.HasBuzzer(d.outputSignals)
    ensures !d.IsSystemSafe()
  {
    ghost var f0, i0, o0 := d.flags, d.inputSignals, d.outputSignals;
    for n := 0 to |draws|
      invariant d.flags == f0
      invariant (d.inputSignals, d.outputSignals) == AfterTicks(i0, o0, draws[..n])
      invariant Aggregator.HasBuzzer(d.outputSignals)
    {
      FlipKeepsBuzzer(d.outputSignals, draws[n].mask);
      d.Tick(draws[n]);
      PrefixSnoc(draws, n);
      InitOfSnoc(draws[..n], draws[n]);
    }
    assert draws[..|draws|] == draws;
    Aggregator.BuzzerMeansUnsafe(d.flags, d.inputSignals, d.outputSignals);
  }
}
