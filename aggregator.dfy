/** The safety aggregator: the ordered list of conditions derived from the
    flags and both signal collections, the failed subsequence, the overall
    safe flag, and the three faults shown in the "Active Faults" panel. */
module Aggregator {
  import opened Signals
  import opened Seqs

  // ---------------------------------------------------------------------
  // Building the condition list
  // ---------------------------------------------------------------------

  /** The two flag conditions that open the list. */
  function FlagConditions(f: Flags): seq<Condition> {
    [ Condition("System Online", f.isOnline, "System Offline"),
      Condition("PLC Connected", f.isConnectedToPLC, "Disconnected from PLC") ]
  }

  /** Every output at its raw state, faulting as "<label> Off". */
  function OffCondition(s: Signal): Condition {
    Condition(s.labelText, s.currentState, s.labelText + " Off")
  }

  /** Non-buzzer outputs a second time, faulting as "<label> Disabled". */
  function DisabledCondition(s: Signal): Condition {
    Condition(s.labelText, s.currentState, s.labelText + " Disabled")
  }

  /** An input's status: its raw state, except the active-low hold-to-run
      input, which passes when released. */
  function InputStatus(s: Signal): bool {
    if s.id == HOLD_TO_RUN_ID then !s.currentState else s.currentState
  }

  /** The fault text of an input, chosen by the first keyword its label
      contains; the hold-to-run id is consulted only when no keyword matches.
      "trigerred" is spelled as the dashboard spells it. */
  function InputErrorMessage(s: Signal): string {
    if Contains(s.labelText, "E-Stop") then s.labelText + " pressed"
    else if Contains(s.labelText, "Interlock") then s.labelText + " tripped"
    else if Contains(s.labelText, "Sensor") then s.labelText + " triggered"
    else if Contains(s.labelText, "Protection") then s.labelText + " tripped"
    else if Contains(s.labelText, "Detection") then s.labelText + " trigerred"
    else if s.id == HOLD_TO_RUN_ID then "Hold To Run active"
    else s.labelText + " fault"
  }

  function InputCondition(s: Signal): Condition {
    Condition(s.labelText, InputStatus(s), InputErrorMessage(s))
  }

  /** `signals.map(f)`. */
  function MapSignals(signals: seq<Signal>, f: Signal -> Condition): (r: seq<Condition>)
    ensures |r| == |signals|
    ensures forall i :: 0 <= i < |signals| ==> r[i] == f(signals[i])
  {
    if signals == [] then [] else [f(signals[0])] + MapSignals(signals[1..], f)
  }

  /** `outputs.filter(s => s.id !== BUZZER_ID)`. */
  function WithoutBuzzer(outputs: seq<Signal>): (r: seq<Signal>)
    ensures |r| <= |outputs|
  {
    if outputs == [] then []
    else (if outputs[0].id == BUZZER_ID then [] else [outputs[0]]) + WithoutBuzzer(outputs[1..])
  }

  /** The filtered outputs are exactly those not carrying the buzzer id. */
  lemma {:induction false} WithoutBuzzerMembers(outputs: seq<Signal>)
    ensures forall s :: s in WithoutBuzzer(outputs) <==> s in outputs && s.id != BUZZER_ID
  {
    if outputs != [] {
      WithoutBuzzerMembers(outputs[1..]);
      assert outputs == [outputs[0]] + outputs[1..];
    }
  }

  /** `signals.find(s => s.id === id)`: the first signal carrying `id`. */
  function Find(signals: seq<Signal>, id: string): (r: Option<Signal>)
    ensures r.None? <==> forall i :: 0 <= i < |signals| ==> signals[i].id != id
    ensures r.Some? ==> exists k :: 0 <= k < |signals| && signals[k] == r.value && r.value.id == id
                                 && forall j :: 0 <= j < k ==> signals[j].id != id
  {
    if signals == [] then None
    else if signals[0].id == id then Some(signals[0])
    else
      Find(signals[1..], id)
  }

  /** `!outputs.find(...)?.currentState`: a missing buzzer reads as
      `!undefined`, that is, as passing. */
  function BuzzerStatus(outputs: seq<Signal>): bool {
    match Find(outputs, BUZZER_ID)
    case None => true
    case Some(b) => !b.currentState
  }

  function BuzzerCondition(outputs: seq<Signal>): Condition {
    Condition("Isolation Fault Buzzer", BuzzerStatus(outputs), "Isolation Fault Buzzer triggered")
  }

  /** `systemConditions`: two flags, every output ("Off"), every input, every
      non-buzzer output again ("Disabled"), and the final buzzer condition. */
  function BuildConditions(f: Flags, inputs: seq<Signal>, outputs: seq<Signal>): (r: seq<Condition>)
    ensures |r| == 2 + |outputs| + |inputs| + |WithoutBuzzer(outputs)| + 1
    ensures r[0] == Condition("System Online", f.isOnline, "System Offline")
    ensures r[1] == Condition("PLC Connected", f.isConnectedToPLC, "Disconnected from PLC")
    ensures r[|r| - 1] == BuzzerCondition(outputs)
  {
    FlagConditions(f)
    + MapSignals(outputs, OffCondition)
    + MapSignals(inputs, InputCondition)
    + MapSignals(WithoutBuzzer(outputs), DisabledCondition)
    + [BuzzerCondition(outputs)]
  }

  /** Output i, at its raw state, sits right after the two flags. */
  lemma OffEntry(f: Flags, inputs: seq<Signal>, outputs: seq<Signal>, i: int)
    requires 0 <= i < |outputs|
    ensures BuildConditions(f, inputs, outputs)[2 + i] == OffCondition(outputs[i])
  {
    var offs := MapSignals(outputs, OffCondition);
    assert BuildConditions(f, inputs, outputs)[2 + i] == offs[i];
  }

  /** Input i follows all outputs; its status is its state, negated for
      the hold-to-run input. */
  lemma InputEntry(f: Flags, inputs: seq<Signal>, outputs: seq<Signal>, i: int)
    requires 0 <= i < |inputs|
    ensures var c := BuildConditions(f, inputs, outputs)[2 + |outputs| + i];
            c == InputCondition(inputs[i])
            && (c.status <==> (inputs[i].currentState <==> inputs[i].id != HOLD_TO_RUN_ID))
  {
    var ins := MapSignals(inputs, InputCondition);
    assert BuildConditions(f, inputs, outputs)[2 + |outputs| + i] == ins[i];
  }

  /** The j-th non-buzzer output is listed again after all inputs. */
  lemma DisabledEntry(f: Flags, inputs: seq<Signal>, outputs: seq<Signal>, j: int)
    requires 0 <= j < |WithoutBuzzer(outputs)|
    ensures BuildConditions(f, inputs, outputs)[2 + |outputs| + |inputs| + j]
            == DisabledCondition(WithoutBuzzer(outputs)[j])
  {
    var dis := MapSignals(WithoutBuzzer(outputs), DisabledCondition);
    assert BuildConditions(f, inputs, outputs)[2 + |outputs| + |inputs| + j] == dis[j];
  }

  // ---------------------------------------------------------------------
  // Failed conditions and the safe flag
  // ---------------------------------------------------------------------

  /** `conditions.filter(c => !c.status)`. */
  function Failed(cs: seq<Condition>): (r: seq<Condition>)
    ensures |r| <= |cs|
  {
    if cs == [] then []
    else (if cs[0].status then [] else [cs[0]]) + Failed(cs[1..])
  }

  /** The failed list holds exactly the conditions whose status is false. */
  lemma {:induction false} FailedMembers(cs: seq<Condition>)
    ensures forall c :: c in Failed(cs) <==> c in cs && !c.status
    ensures forall i :: 0 <= i < |cs| && !cs[i].status ==> cs[i] in Failed(cs)
  {
    if cs != [] {
      FailedMembers(cs[1..]);
      forall i | 0 <= i < |cs| && !cs[i].status ensures cs[i] in Failed(cs) {
        if i > 0 { assert cs[i] == cs[1..][i - 1]; }
      }
    }
  }

  /** `failedConditions.length === 0`. */
  predicate IsSystemSafe(cs: seq<Condition>)
    ensures IsSystemSafe(cs) <==> forall i :: 0 <= i < |cs| ==> cs[i].status
  {
    FailedMembers(cs);
    var failed := Failed(cs);
    assert failed != [] ==> failed[0] in cs;
    |failed| == 0
  }

  /** The "Active Faults" panel: at most the first three failed conditions. */
  function ShownFaults(cs: seq<Condition>): (r: seq<Condition>)
    ensures |r| == if |Failed(cs)| < 3 then |Failed(cs)| else 3
    ensures r == Failed(cs)[..|r|]
    ensures forall c :: c in r ==> c in cs && !c.status
    ensures r == [] <==> IsSystemSafe(cs)
  {
    FailedMembers(cs);
    var failed := Failed(cs);
    if |failed| < 3 then failed else failed[..3]
  }

  // ---------------------------------------------------------------------
  // Properties
  // ---------------------------------------------------------------------

  /** Filtering distributes over concatenation: the failed list keeps the
      relative order of the conditions. */
  lemma {:induction false} FailedAppend(a: seq<Condition>, b: seq<Condition>)
    ensures Failed(a + b) == Failed(a) + Failed(b)
  {
    if a == [] {
      assert a + b == b;
    } else {
      DropAppend(a, b);
      FailedAppend(a[1..], b);
    }
  }

  /** Where the condition at position `p` lands in the failed list: after
      the failures that precede it. */
  function FailedIndex(cs: seq<Condition>, p: int): nat
    requires 0 <= p <= |cs|
  {
    |Failed(cs[..p])|
  }

  /** A failing condition at position `p` sits in the failed list at
      `FailedIndex(cs, p)`. */
  lemma FailedAt(cs: seq<Condition>, p: int)
    requires 0 <= p < |cs| && !cs[p].status
    ensures FailedIndex(cs, p) < |Failed(cs)|
    ensures Failed(cs)[FailedIndex(cs, p)] == cs[p]
  {
    SplitAt(cs, p);
    FailedAppend(cs[..p] + [cs[p]], cs[p + 1..]);
    FailedAppend(cs[..p], [cs[p]]);
    assert Failed([cs[p]]) == [cs[p]];
  }

  /** Two failing conditions appear in the failed list in their original order. */
  lemma FailedKeepsOrder(cs: seq<Condition>, p: int, q: int)
    requires 0 <= p < q < |cs| && !cs[p].status && !cs[q].status
    ensures FailedIndex(cs, p) < FailedIndex(cs, q) < |Failed(cs)|
    ensures Failed(cs)[FailedIndex(cs, p)] == cs[p]
    ensures Failed(cs)[FailedIndex(cs, q)] == cs[q]
  {
    FailedAt(cs, p);
    FailedAt(cs, q);
    var before, middle := cs[..p], cs[p..q];
    assert cs[..q] == before + middle;
    FailedAppend(before, middle);
    assert middle == [cs[p]] + middle[1..];
    FailedAppend([cs[p]], middle[1..]);
    assert Failed([cs[p]]) == [cs[p]];
  }

  /** A list in which exactly one condition fails has that condition as its
      whole failed list. */
  lemma FailedSingle(cs: seq<Condition>, p: int)
    requires 0 <= p < |cs| && !cs[p].status
    requires forall i :: 0 <= i < |cs| && i != p ==> cs[i].status
    ensures Failed(cs) == [cs[p]]
  {
    var before, x, after := cs[..p], cs[p], cs[p + 1..];
    FailedNone(before);
    FailedNone(after);
    SplitAt(cs, p);
    calc {
      Failed(cs);
      Failed(before + [x] + after);
      { FailedAppend(before + [x], after); }
      Failed(before + [x]) + Failed(after);
      { FailedAppend(before, [x]); }
      Failed(before) + Failed([x]) + Failed(after);
      { assert Failed([x]) == [x]; }
      [x];
    }
  }

  /** A list in which every condition passes has an empty failed list. */
  lemma {:induction false} FailedNone(cs: seq<Condition>)
    requires forall i :: 0 <= i < |cs| ==> cs[i].status
    ensures Failed(cs) == []
  {
    if cs != [] {
      var rest := cs[1..];
      assert forall i :: 0 <= i < |rest| ==> rest[i].status by {
        forall i | 0 <= i < |rest| ensures rest[i].status { assert rest[i] == cs[i + 1]; }
      }
      FailedNone(rest);
    }
  }

  lemma {:induction false} WithoutBuzzerAppend(a: seq<Signal>, b: seq<Signal>)
    ensures WithoutBuzzer(a + b) == WithoutBuzzer(a) + WithoutBuzzer(b)
  {
    if a == [] {
      assert a + b == b;
    } else {
      DropAppend(a, b);
      WithoutBuzzerAppend(a[1..], b);
    }
  }

  /** The k-th output, when it is not the buzzer, is listed again at the
      position given by the non-buzzer outputs before it. */
  lemma WithoutBuzzerAt(outputs: seq<Signal>, k: int)
    requires 0 <= k < |outputs| && outputs[k].id != BUZZER_ID
    ensures |WithoutBuzzer(outputs[..k])| < |WithoutBuzzer(outputs)|
    ensures WithoutBuzzer(outputs)[|WithoutBuzzer(outputs[..k])|] == outputs[k]
  {
    SplitAt(outputs, k);
    WithoutBuzzerAppend(outputs[..k] + [outputs[k]], outputs[k + 1..]);
    WithoutBuzzerAppend(outputs[..k], [outputs[k]]);
    assert WithoutBuzzer([outputs[k]]) == [outputs[k]];
  }

  /** Only `isOnline` and `isConnectedToPLC` reach the condition list. */
  lemma ConditionsIgnoreOtherFlags(f: Flags, g: Flags, inputs: seq<Signal>, outputs: seq<Signal>)
    requires f.isOnline == g.isOnline && f.isConnectedToPLC == g.isConnectedToPLC
    ensures BuildConditions(f, inputs, outputs) == BuildConditions(g, inputs, outputs)
  {
  }

  /** The input fault text is decided by the first keyword of the ordered
      table that the label contains. */
  const MESSAGE_RULES: seq<(string, string)> := [
    ("E-Stop", " pressed"),
    ("Interlock", " tripped"),
    ("Sensor", " triggered"),
    ("Protection", " tripped"),
    ("Detection", " trigerred")
  ]

  lemma InputMessageFirstMatch(s: Signal, k: int)
    requires 0 <= k < |MESSAGE_RULES|
    requires Contains(s.labelText, MESSAGE_RULES[k].0)
    requires forall j :: 0 <= j < k ==> !Contains(s.labelText, MESSAGE_RULES[j].0)
    ensures InputErrorMessage(s) == s.labelText + MESSAGE_RULES[k].1
  {
    if k > 0 { assert !Contains(s.labelText, MESSAGE_RULES[0].0); }
    if k > 1 { assert !Contains(s.labelText, MESSAGE_RULES[1].0); }
    if k > 2 { assert !Contains(s.labelText, MESSAGE_RULES[2].0); }
    if k > 3 { assert !Contains(s.labelText, MESSAGE_RULES[3].0); }
  }

  lemma InputMessageNoMatch(s: Signal)
    requires forall j :: 0 <= j < |MESSAGE_RULES| ==> !Contains(s.labelText, MESSAGE_RULES[j].0)
    ensures InputErrorMessage(s) == if s.id == HOLD_TO_RUN_ID then "Hold To Run active" else s.labelText + " fault"
  {
    assert !Contains(s.labelText, MESSAGE_RULES[0].0);
    assert !Contains(s.labelText, MESSAGE_RULES[1].0);
    assert !Contains(s.labelText, MESSAGE_RULES[2].0);
    assert !Contains(s.labelText, MESSAGE_RULES[3].0);
    assert !Contains(s.labelText, MESSAGE_RULES[4].0);
  }

  /** `Find` returns the output at the first index carrying the buzzer id. */
  lemma FindFirst(outputs: seq<Signal>, k: int)
    requires 0 <= k < |outputs| && outputs[k].id == BUZZER_ID
    requires forall j :: 0 <= j < k ==> outputs[j].id != BUZZER_ID
    ensures Find(outputs, BUZZER_ID) == Some(outputs[k])
  {
    var r := Find(outputs, BUZZER_ID);
    var k' :| 0 <= k' < |outputs| && outputs[k'] == r.value && r.value.id == BUZZER_ID
              && forall j :: 0 <= j < k' ==> outputs[j].id != BUZZER_ID;
    assert k' == k;
  }

  /** The buzzer is listed twice, at its raw state (position 2 + k) and
      negated (last): exactly one of the two conditions fails. */
  lemma BuzzerConditionsDisagree(f: Flags, inputs: seq<Signal>, outputs: seq<Signal>, k: int)
    requires 0 <= k < |outputs| && outputs[k].id == BUZZER_ID
    requires forall j :: 0 <= j < k ==> outputs[j].id != BUZZER_ID
    ensures var r := BuildConditions(f, inputs, outputs);
            r[2 + k].status != r[|r| - 1].status
  {
    FindFirst(outputs, k);
    OffEntry(f, inputs, outputs, k);
  }

  /** Some output carries the buzzer id. */
  predicate HasBuzzer(outputs: seq<Signal>) {
    exists k :: 0 <= k < |outputs| && outputs[k].id == BUZZER_ID
  }

  /** Whenever an output carries the buzzer id, the system is never safe,
      whatever the flags and signal states are. */
  lemma BuzzerMeansUnsafe(f: Flags, inputs: seq<Signal>, outputs: seq<Signal>)
    requires HasBuzzer(outputs)
    ensures !IsSystemSafe(BuildConditions(f, inputs, outputs))
  {
    var b := Find(outputs, BUZZER_ID);
    var k :| 0 <= k < |outputs| && outputs[k] == b.value && b.value.id == BUZZER_ID
             && forall j :: 0 <= j < k ==> outputs[j].id != BUZZER_ID;
    BuzzerConditionsDisagree(f, inputs, outputs, k);
  }

  /** The all-healthy case: both flags up, every output on except a silent
      buzzer, every input passing. The system still reports one fault, the
      buzzer read at its raw state as "<label> Off". */
  lemma SilentBuzzerIsTheOnlyFault(f: Flags, inputs: seq<Signal>, outputs: seq<Signal>, k: int)
    requires f.isOnline && f.isConnectedToPLC
    requires 0 <= k < |outputs| && outputs[k].id == BUZZER_ID && !outputs[k].currentState
    requires forall j :: 0 <= j < |outputs| && j != k ==> outputs[j].id != BUZZER_ID && outputs[j].currentState
    requires forall i :: 0 <= i < |inputs| ==> InputStatus(inputs[i])
    ensures Failed(BuildConditions(f, inputs, outputs))
            == [Condition(outputs[k].labelText, false, outputs[k].labelText + " Off")]
  {
    var cs := BuildConditions(f, inputs, outputs);
    HealthyConditionsPass(f, inputs, outputs, k, cs);
    FailedSingle(cs, 2 + k);
  }

  /** The all-healthy state around the buzzer output k: every condition
      passes except possibly the buzzer's two entries, its raw "Off" entry
      and the final one, whose statuses are read from its state. */
  lemma HealthyConditionsPass(f: Flags, inputs: seq<Signal>, outputs: seq<Signal>, k: int, cs: seq<Condition>)
    requires f.isOnline && f.isConnectedToPLC
    requires 0 <= k < |outputs| && outputs[k].id == BUZZER_ID
    requires forall j :: 0 <= j < |outputs| && j != k ==> outputs[j].id != BUZZER_ID && outputs[j].currentState
    requires forall i :: 0 <= i < |inputs| ==> InputStatus(inputs[i])
    requires cs == BuildConditions(f, inputs, outputs)
    ensures 2 + k < |cs| - 1
    ensures cs[2 + k] == OffCondition(outputs[k])
    ensures cs[|cs| - 1] == BuzzerCondition(outputs) && BuzzerStatus(outputs) == !outputs[k].currentState
    ensures forall i :: 0 <= i < |cs| - 1 && i != 2 + k ==> cs[i].status
  {
    FindFirst(outputs, k);
    OffEntry(f, inputs, outputs, k);
    WithoutBuzzerAllOn(outputs);
    var o, n := |outputs|, |inputs|;
    forall i | 0 <= i < |cs| - 1 && i != 2 + k ensures cs[i].status {
      if i < 2 {
      } else if i < 2 + o {
        OffEntry(f, inputs, outputs, i - 2);
      } else if i < 2 + o + n {
        InputEntry(f, inputs, outputs, i - 2 - o);
      } else {
        DisabledEntry(f, inputs, outputs, i - 2 - o - n);
      }
    }
  }

  /** When every non-buzzer output is on, so is every output the filter keeps. */
  lemma {:induction false} WithoutBuzzerAllOn(outputs: seq<Signal>)
    requires forall j :: 0 <= j < |outputs| && outputs[j].id != BUZZER_ID ==> outputs[j].currentState
    ensures forall j :: 0 <= j < |WithoutBuzzer(outputs)| ==> WithoutBuzzer(outputs)[j].currentState
  {
    if outputs != [] {
      var tail := outputs[1..];
      assert forall j :: 0 <= j < |tail| && tail[j].id != BUZZER_ID ==> tail[j].currentState by {
        forall j | 0 <= j < |tail| && tail[j].id != BUZZER_ID ensures tail[j].currentState {
          assert tail[j] == outputs[j + 1];
        }
      }
      WithoutBuzzerAllOn(tail);
    }
  }

  /** The all-healthy case with the buzzer sounding: the raw "Off" entry of
      the buzzer now passes, and the only fault is the final condition,
      "Isolation Fault Buzzer triggered". */
  lemma ActiveBuzzerIsTheOnlyFault(f: Flags, inputs: seq<Signal>, outputs: seq<Signal>, k: int)
    requires f.isOnline && f.isConnectedToPLC
    requires 0 <= k < |outputs| && outputs[k].id == BUZZER_ID && outputs[k].currentState
    requires forall j :: 0 <= j < |outputs| && j != k ==> outputs[j].id != BUZZER_ID && outputs[j].currentState
    requires forall i :: 0 <= i < |inputs| ==> InputStatus(inputs[i])
    ensures Failed(BuildConditions(f, inputs, outputs))
            == [Condition("Isolation Fault Buzzer", false, "Isolation Fault Buzzer triggered")]
  {
    var cs := BuildConditions(f, inputs, outputs);
    HealthyConditionsPass(f, inputs, outputs, k, cs);
    FailedSingle(cs, |cs| - 1);
  }

  /** Without a buzzer output the final condition is the `!undefined` case:
      it always passes. */
  lemma NoBuzzerFinalPasses(f: Flags, inputs: seq<Signal>, outputs: seq<Signal>)
    requires forall i :: 0 <= i < |outputs| ==> outputs[i].id != BUZZER_ID
    ensures var r := BuildConditions(f, inputs, outputs);
            r[|r| - 1] == Condition("Isolation Fault Buzzer", true, "Isolation Fault Buzzer triggered")
  {
  }

  /** The position of the "Disabled" entry of the k-th output: after the
      flags, all outputs, all inputs and the non-buzzer outputs before it. */
  function DisabledPosition(inputs: seq<Signal>, outputs: seq<Signal>, k: int): int
    requires 0 <= k <= |outputs|
  {
    2 + |outputs| + |inputs| + |WithoutBuzzer(outputs[..k])|
  }

  /** A switched-off non-buzzer output (a contactor) is listed twice with a
      false status: first as "<label> Off", later as "<label> Disabled". */
  lemma OffOutputListedTwice(f: Flags, inputs: seq<Signal>, outputs: seq<Signal>, k: int)
    requires 0 <= k < |outputs| && outputs[k].id != BUZZER_ID && !outputs[k].currentState
    ensures var r := BuildConditions(f, inputs, outputs);
            var q := DisabledPosition(inputs, outputs, k);
            var s := outputs[k];
            && 2 + k < q < |r|
            && r[2 + k] == Condition(s.labelText, false, s.labelText + " Off")
            && r[q] == Condition(s.labelText, false, s.labelText + " Disabled")
  {
    WithoutBuzzerAt(outputs, k);
    OffEntry(f, inputs, outputs, k);
    DisabledEntry(f, inputs, outputs, |WithoutBuzzer(outputs[..k])|);
  }

  /** ... and both entries reach the failed list, in that order. */
  lemma OffOutputFailsTwice(f: Flags, inputs: seq<Signal>, outputs: seq<Signal>, k: int)
    requires 0 <= k < |outputs| && outputs[k].id != BUZZER_ID && !outputs[k].currentState
    ensures var cs := BuildConditions(f, inputs, outputs);
            2 + k < DisabledPosition(inputs, outputs, k) < |cs|
    ensures var cs := BuildConditions(f, inputs, outputs);
            FailedIndex(cs, 2 + k) < FailedIndex(cs, DisabledPosition(inputs, outputs, k)) < |Failed(cs)|
    ensures var cs := BuildConditions(f, inputs, outputs);
            Failed(cs)[FailedIndex(cs, 2 + k)]
            == Condition(outputs[k].labelText, false, outputs[k].labelText + " Off")
    ensures var cs := BuildConditions(f, inputs, outputs);
            Failed(cs)[FailedIndex(cs, DisabledPosition(inputs, outputs, k))]
            == Condition(outputs[k].labelText, false, outputs[k].labelText + " Disabled")
  {
    OffOutputListedTwice(f, inputs, outputs, k);
    var cs := BuildConditions(f, inputs, outputs);
    FailedKeepsOrder(cs, 2 + k, DisabledPosition(inputs, outputs, k));
  }

  // ---------------------------------------------------------------------
  // Switching one signal back on
  // ---------------------------------------------------------------------

  /** Replacing one condition changes the number of failures by that
      condition's own contribution only. */
  lemma FailedUpdate(cs: seq<Condition>, p: int, c: Condition)
    requires 0 <= p < |cs|
    ensures |Failed(cs[p := c])| + (if cs[p].status then 0 else 1)
            == |Failed(cs)| + (if c.status then 0 else 1)
  {
    var before, after := cs[..p], cs[p + 1..];
    SplitAt(cs, p);
    UpdateSplit(cs, p, c);
    FailedAppend(before + [cs[p]], after);
    FailedAppend(before, [cs[p]]);
    FailedAppend(before + [c], after);
    FailedAppend(before, [c]);
    assert Failed([cs[p]]) == if cs[p].status then [] else [cs[p]];
    assert Failed([c]) == if c.status then [] else [c];
  }

  /** The failures of the five sections of the list add up. */
  lemma FailedSections(a: seq<Condition>, b: seq<Condition>, c: seq<Condition>,
                       d: seq<Condition>, e: seq<Condition>)
    ensures |Failed(a + b + c + d + e)|
            == |Failed(a)| + |Failed(b)| + |Failed(c)| + |Failed(d)| + |Failed(e)|
  {
    FailedAppend(a + b + c + d, e);
    FailedAppend(a + b + c, d);
    FailedAppend(a + b, c);
    FailedAppend(a, b);
  }

  /** Mapping an updated list updates the image at the same position. */
  lemma MapSignalsUpdate(signals: seq<Signal>, k: int, s: Signal, g: Signal -> Condition)
    requires 0 <= k < |signals|
    ensures MapSignals(signals[k := s], g) == MapSignals(signals, g)[k := g(s)]
  {
  }

  /** Changing a signal that does not carry `id` into another that does not
      leaves the lookup unchanged. */
  lemma {:induction false} FindIgnoresUpdate(signals: seq<Signal>, id: string, k: int, s: Signal)
    requires 0 <= k < |signals| && signals[k].id != id && s.id != id
    ensures Find(signals[k := s], id) == Find(signals, id)
    decreases |signals|
  {
    if k == 0 {
      assert signals[k := s][1..] == signals[1..];
    } else if signals[0].id != id {
      assert signals[k := s][1..] == signals[1..][k - 1 := s];
      FindIgnoresUpdate(signals[1..], id, k - 1, s);
    }
  }

  /** Changing a non-buzzer output into another non-buzzer output changes
      the filtered list at the position of its "Disabled" entry only. */
  lemma {:induction false} WithoutBuzzerUpdate(outputs: seq<Signal>, k: int, s: Signal)
    requires 0 <= k < |outputs| && outputs[k].id != BUZZER_ID && s.id != BUZZER_ID
    ensures |WithoutBuzzer(outputs[..k])| < |WithoutBuzzer(outputs)|
    ensures WithoutBuzzer(outputs[k := s])
            == WithoutBuzzer(outputs)[|WithoutBuzzer(outputs[..k])| := s]
    decreases k
  {
    var on, tail := outputs[k := s], outputs[1..];
    if k == 0 {
      assert on[1..] == tail;
      assert WithoutBuzzer(outputs[..0]) == [];
    } else {
      WithoutBuzzerUpdate(tail, k - 1, s);
      assert on[1..] == tail[k - 1 := s];
      assert outputs[..k][1..] == tail[..k - 1];
      var head := if outputs[0].id == BUZZER_ID then [] else [outputs[0]];
      assert WithoutBuzzer(outputs[..k]) == head + WithoutBuzzer(tail[..k - 1]);
      UpdateAfter(head, WithoutBuzzer(tail), |WithoutBuzzer(tail[..k - 1])|, s);
    }
  }

  /** The number of failures, section by section. */
  lemma FailedBySection(f: Flags, inputs: seq<Signal>, outputs: seq<Signal>)
    ensures |Failed(BuildConditions(f, inputs, outputs))|
            == |Failed(FlagConditions(f))|
               + |Failed(MapSignals(outputs, OffCondition))|
               + |Failed(MapSignals(inputs, InputCondition))|
               + |Failed(MapSignals(WithoutBuzzer(outputs), DisabledCondition))|
               + (if BuzzerStatus(outputs) then 0 else 1)
  {
    var last := BuzzerCondition(outputs);
    FailedSections(FlagConditions(f), MapSignals(outputs, OffCondition), MapSignals(inputs, InputCondition),
                   MapSignals(WithoutBuzzer(outputs), DisabledCondition), [last]);
    assert Failed([last]) == if last.status then [] else [last];
  }

  /** Switching on the k-th output removes one failure from a section built
      from it. */
  lemma SwitchOnOneFewer(signals: seq<Signal>, k: int, g: Signal -> Condition)
    requires 0 <= k < |signals| && !g(signals[k]).status
    requires g(signals[k].(currentState := true)).status
    ensures |Failed(MapSignals(signals, g))|
            == |Failed(MapSignals(signals[k := signals[k].(currentState := true)], g))| + 1
  {
    var s := signals[k].(currentState := true);
    MapSignalsUpdate(signals, k, s, g);
    FailedUpdate(MapSignals(signals, g), k, g(s));
  }

  /** Switching one switched-off non-buzzer output (a contactor) back on
      removes exactly two failures, its "Off" and "Disabled" entries, and
      changes nothing else in the count. */
  lemma SwitchingOnOutputRemovesTwoFaults(f: Flags, inputs: seq<Signal>, outputs: seq<Signal>, k: int)
    requires 0 <= k < |outputs| && outputs[k].id != BUZZER_ID && !outputs[k].currentState
    ensures var on := outputs[k := outputs[k].(currentState := true)];
            |Failed(BuildConditions(f, inputs, outputs))|
            == |Failed(BuildConditions(f, inputs, on))| + 2
  {
    var s := outputs[k].(currentState := true);
    var on := outputs[k := s];
    var j := |WithoutBuzzer(outputs[..k])|;
    WithoutBuzzerUpdate(outputs, k, s);
    WithoutBuzzerAt(outputs, k);
    FindIgnoresUpdate(outputs, BUZZER_ID, k, s);
    assert BuzzerStatus(on) == BuzzerStatus(outputs);
    SwitchOnOneFewer(outputs, k, OffCondition);
    SwitchOnOneFewer(WithoutBuzzer(outputs), j, DisabledCondition);
    FailedBySection(f, inputs, outputs);
    FailedBySection(f, inputs, on);
  }

  /** Toggling one failing input removes exactly its own failure: the
      toggled input passes (for hold-to-run, by being released). */
  lemma FixingInputRemovesOneFault(f: Flags, inputs: seq<Signal>, outputs: seq<Signal>, k: int)
    requires 0 <= k < |inputs| && !InputStatus(inputs[k])
    ensures var fixed := inputs[k := inputs[k].(currentState := !inputs[k].currentState)];
            InputStatus(fixed[k])
            && |Failed(BuildConditions(f, inputs, outputs))|
               == |Failed(BuildConditions(f, fixed, outputs))| + 1
  {
    var s := inputs[k].(currentState := !inputs[k].currentState);
    var fixed := inputs[k := s];
    MapSignalsUpdate(inputs, k, s, InputCondition);
    FailedUpdate(MapSignals(inputs, InputCondition), k, InputCondition(s));
    FailedBySection(f, inputs, outputs);
    FailedBySection(f, fixed, outputs);
  }
}
