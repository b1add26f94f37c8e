# Safety dashboard aggregator

This project models the logic inside the safety service dashboard
(`src/components/SafetyDashboard.tsx`) of a platform-area monitoring system.

The dashboard holds three pieces of state:

- eight boolean status flags;
- sixteen input signals: e-stops, interlocks, sensors, hold-to-run, protection and isolation detection;
- five output signals: four contactors and the isolation fault buzzer.

From that state it derives:

- the ordered list of *system conditions*;
- the *failed conditions* and the *system safe* flag;
- the first three faults shown in the "Active Faults" panel;
- the inputs grouped by category.

An interval callback simulates telemetry by negating randomly chosen signals.

Modules:

- `Signals`: the `Signal`, `Condition` and `Flags` records, the two signal ids
  the code singles out, and the `includes` substring test (`Contains`).
- `Seqs`: small facts about splitting, updating and taking prefixes of
  sequences, used by the proofs.
- `Aggregator`: the condition list (`BuildConditions`), the failed filter,
  the safe flag and the first-three slice as functions, with the lemmas
  about them.
- `Grouping`: the `reduce` into a dictionary of buckets. It is a method
  with a loop over a mutable `map` plus the key insertion order, proved
  equal to the specification functions `Categories` and `Bucket`.
- `Dashboard`: the per-signal flip map as a loop method (`FlipSignals`)
  proved equal to `Flip`, the literal initial data, and the class
  `Dashboard` holding the state. Its `Tick` is one interval firing. The
  random draws are a `TickDraw` parameter: whether anything changes, which
  list changes, and a boolean mask that selects the signals to negate.

The central facts proved:

- The buzzer output enters the list twice: once at its raw state with
  "Off", once negated by the final condition. Exactly one of the two fails,
  so whenever the buzzer output is present the dashboard never reports the
  system safe, whatever the state (`BuzzerMeansUnsafe`, `Run`).
- As mounted, the only active fault is "Isolation Fault Buzzer Off"
  (`Dashboard.constructor`).
- A switched-off contactor fails twice, "Off" and then "Disabled";
  switching it back on removes exactly those two failures, and fixing a
  failing input removes exactly one.

Details of the code worth knowing:

- The buzzer output is not inverted in the output section of the list;
  only the final condition negates it.
- The Detection message is spelled "trigerred".
- With both flags up, every input passing, every contactor on and the
  buzzer silent, the list still holds one fault, "Isolation Fault Buzzer
  Off" (`SilentBuzzerIsTheOnlyFault`). With the buzzer sounding instead,
  the one fault is "Isolation Fault Buzzer triggered"
  (`ActiveBuzzerIsTheOnlyFault`).

## Model

| member | source | states |
|---|---|---|
| Signals.ContainsIffOccurs | src/components/SafetyDashboard.tsx:70-74 | the label test `includes(sub)` holds iff `sub` occurs at some position of the label |
| Aggregator.MapSignals | src/components/SafetyDashboard.tsx:62-66 | a `map` over signals keeps the length and puts the image of signal i at position i |
| Aggregator.WithoutBuzzer | src/components/SafetyDashboard.tsx:78 | the filtered outputs are never more than the outputs |
| Aggregator.WithoutBuzzerMembers | src/components/SafetyDashboard.tsx:78 | the filtered outputs are exactly the outputs whose id is not the buzzer id |
| Aggregator.Find | src/components/SafetyDashboard.tsx:85 | `find` yields nothing iff no signal carries the id, otherwise the first signal carrying it |
| Aggregator.BuildConditions | src/components/SafetyDashboard.tsx:59-88 | the list is 2 + outputs + inputs + non-buzzer outputs + 1 long; it opens with the online and PLC flag conditions and closes with the buzzer condition read through `find` |
| Aggregator.OffEntry | src/components/SafetyDashboard.tsx:62-66 | output i sits at position 2 + i with its raw state and "<label> Off" |
| Aggregator.InputEntry | src/components/SafetyDashboard.tsx:67-77 | input i sits after all outputs; its status equals its state for every id but hold-to-run, where it is the negation |
| Aggregator.DisabledEntry | src/components/SafetyDashboard.tsx:78-82 | the j-th non-buzzer output is listed again after all inputs with "<label> Disabled" |
| Aggregator.FailedMembers | src/components/SafetyDashboard.tsx:90 | a condition is in the failed list iff it is in the list with a false status |
| Aggregator.FailedAppend | src/components/SafetyDashboard.tsx:90 | the failed filter distributes over concatenation |
| Aggregator.FailedAt | src/components/SafetyDashboard.tsx:90 | a failing condition at position p appears in the failed list after exactly the failures before p |
| Aggregator.FailedKeepsOrder | src/components/SafetyDashboard.tsx:90 | two failing conditions keep their relative order in the failed list |
| Aggregator.FailedSingle | src/components/SafetyDashboard.tsx:90 | if exactly one condition fails, the failed list is that condition alone |
| Aggregator.FailedNone | src/components/SafetyDashboard.tsx:90 | if every condition passes, the failed list is empty |
| Aggregator.IsSystemSafe | src/components/SafetyDashboard.tsx:91 | the system is safe iff every condition has a true status |
| Aggregator.ShownFaults | src/components/SafetyDashboard.tsx:222-230 | the panel shows the first min(3, failed) failed conditions, all failing members of the list, and nothing iff the system is safe |
| Aggregator.WithoutBuzzerAppend | src/components/SafetyDashboard.tsx:78 | the buzzer filter distributes over concatenation |
| Aggregator.WithoutBuzzerAt | src/components/SafetyDashboard.tsx:78-82 | a non-buzzer output k reappears in the filtered list at the index equal to the number of non-buzzer outputs before it |
| Aggregator.ConditionsIgnoreOtherFlags | src/components/SafetyDashboard.tsx:59-61 | only `isOnline` and `isConnectedToPLC` influence the condition list; the other six flags never do |
| Aggregator.InputMessageFirstMatch | src/components/SafetyDashboard.tsx:70-74 | the input message uses the suffix of the first keyword, in the order E-Stop, Interlock, Sensor, Protection, Detection, that the label contains; this takes precedence over the hold-to-run id |
| Aggregator.InputMessageNoMatch | src/components/SafetyDashboard.tsx:75-76 | with no keyword in the label, the message is "Hold To Run active" for the hold-to-run id and "<label> fault" otherwise |
| Aggregator.FindFirst | src/components/SafetyDashboard.tsx:85 | the buzzer lookup returns the output at the first index carrying the buzzer id |
| Aggregator.BuzzerConditionsDisagree | src/components/SafetyDashboard.tsx:62-87 | the buzzer's raw "Off" condition and the final negated buzzer condition always have opposite statuses |
| Aggregator.BuzzerMeansUnsafe | src/components/SafetyDashboard.tsx:59-91 | whenever an output carries the buzzer id, the system is not safe, for all flags and signal states |
| Aggregator.HealthyConditionsPass | src/components/SafetyDashboard.tsx:59-88 | with both flags up, every input passing and every non-buzzer output on, every condition passes except possibly the buzzer's raw "Off" entry and the final one, whose statuses are the buzzer's state and its negation |
| Aggregator.SilentBuzzerIsTheOnlyFault | src/components/SafetyDashboard.tsx:59-91 | in that healthy state with the buzzer silent, the failed list is exactly the one condition "<buzzer label> Off" |
| Aggregator.ActiveBuzzerIsTheOnlyFault | src/components/SafetyDashboard.tsx:59-91 | in that healthy state with the buzzer sounding, the failed list is exactly the one condition "Isolation Fault Buzzer triggered" |
| Aggregator.WithoutBuzzerAllOn | src/components/SafetyDashboard.tsx:78-82 | when every non-buzzer output is on, every output the filter keeps is on |
| Aggregator.NoBuzzerFinalPasses | src/components/SafetyDashboard.tsx:83-87 | without a buzzer output the final condition reads `!undefined` and passes |
| Aggregator.OffOutputListedTwice | src/components/SafetyDashboard.tsx:62-82 | a switched-off non-buzzer output is listed as a false "<label> Off" entry and later as a false "<label> Disabled" entry |
| Aggregator.OffOutputFailsTwice | src/components/SafetyDashboard.tsx:62-90 | both of those entries are in the failed list, "Off" before "Disabled" |
| Aggregator.FailedUpdate | src/components/SafetyDashboard.tsx:90 | replacing one condition changes the number of failures by that condition's own contribution only |
| Aggregator.FailedSections | src/components/SafetyDashboard.tsx:90 | the failures of concatenated sections add up |
| Aggregator.MapSignalsUpdate | src/components/SafetyDashboard.tsx:62-82 | mapping a list with one signal replaced replaces the image at the same position |
| Aggregator.FindIgnoresUpdate | src/components/SafetyDashboard.tsx:85 | replacing a signal that does not carry the id with another that does not leaves `find` unchanged |
| Aggregator.WithoutBuzzerUpdate | src/components/SafetyDashboard.tsx:78 | replacing a non-buzzer output with another non-buzzer output changes the filtered list at its own position only |
| Aggregator.FailedBySection | src/components/SafetyDashboard.tsx:59-90 | the number of failures is the sum of the failures of the flag, Off, input and Disabled sections plus one if the final buzzer condition fails |
| Aggregator.SwitchOnOneFewer | src/components/SafetyDashboard.tsx:62-82 | switching on an output whose entry fails, and passes once on, removes one failure from that section |
| Aggregator.SwitchingOnOutputRemovesTwoFaults | src/components/SafetyDashboard.tsx:62-90 | switching one switched-off non-buzzer output back on lowers the number of failures by exactly two |
| Aggregator.FixingInputRemovesOneFault | src/components/SafetyDashboard.tsx:67-90 | toggling one failing input makes it pass and lowers the number of failures by exactly one |
| Grouping.Categories | src/components/SafetyDashboard.tsx:94-98 | the dictionary keys are exactly the categories present, each once |
| Grouping.Bucket | src/components/SafetyDashboard.tsx:94-98 | a bucket holds exactly the signals of its category |
| Grouping.GroupByCategory | src/components/SafetyDashboard.tsx:94-98 | the in-place reduce ends with the keys in insertion order equal to `Categories`, one bucket per key, each bucket equal to `Bucket` |
| Grouping.GroupStep | src/components/SafetyDashboard.tsx:95-96 | one reduce step, creating the bucket when missing and pushing the signal, turns the dictionary of a prefix into the dictionary of the prefix plus that signal |
| Grouping.BucketAppend | src/components/SafetyDashboard.tsx:96 | buckets keep scan order: grouping a concatenation concatenates the buckets |
| Grouping.InExactlyOneBucket | src/components/SafetyDashboard.tsx:94-98 | every signal's category is a key, and the signal lies in that bucket and in no other |
| Grouping.BucketOnlyOfPresentCategory | src/components/SafetyDashboard.tsx:95 | a non-empty bucket belongs to a category some signal carries |
| Grouping.TotalSizeAppendKey | src/components/SafetyDashboard.tsx:94-98 | adding a key adds the size of its bucket to the total |
| Grouping.TotalSizeAppendSignal | src/components/SafetyDashboard.tsx:96 | scanning one more signal grows the summed bucket sizes over distinct keys by one exactly when its category is among those keys |
| Grouping.BucketSizesSum | src/components/SafetyDashboard.tsx:94-98 | the bucket sizes sum to the number of input signals |
| Grouping.CategoriesInFirstOccurrenceOrder | src/components/SafetyDashboard.tsx:95 | keys are in first-occurrence order: before any signal of a later key there is a signal of every earlier key |
| Dashboard.FlipSignals | src/components/SafetyDashboard.tsx:122-128 | the flip map, computed one signal at a time, equals `Flip` of the signals and the mask |
| Dashboard.FlipKeepsIdentity | src/components/SafetyDashboard.tsx:122-128 | a flip keeps the length and each signal's id, label, category and message; `currentState` is negated exactly where the mask selects |
| Dashboard.FlipTwice | src/components/SafetyDashboard.tsx:122-128 | applying the same mask twice restores the signals |
| Dashboard.FlipKeepsIds | src/components/SafetyDashboard.tsx:122-128 | a flip keeps the id at every position |
| Dashboard.FlipKeepsBuzzer | src/components/SafetyDashboard.tsx:126-128 | flipping never removes the buzzer output |
| Dashboard.InitialOutputs | src/components/SafetyDashboard.tsx:50-56 | the initial outputs include the buzzer |
| Dashboard.InitialFaults | src/components/SafetyDashboard.tsx:19-91 | on the initial data the failed list is exactly "Isolation Fault Buzzer Off" |
| Dashboard.Dashboard.constructor | src/components/SafetyDashboard.tsx:19-56 | the dashboard starts with the literal flags and signals, and its only failed condition is "Isolation Fault Buzzer Off" |
| Dashboard.Dashboard.Tick | src/components/SafetyDashboard.tsx:117-131 | one firing replaces either the inputs or the outputs with their flip map, or nothing if it does not fire; the flags never change |
| Dashboard.AfterTicks | src/components/SafetyDashboard.tsx:117-131 | the lists after a sequence of firings, each replacing the chosen list by its flip map; every signal keeps its id at its index |
| Dashboard.Run | src/components/SafetyDashboard.tsx:116-134 | after mounting and any sequence of firings the flags are the initial ones, the lists are the successive flips of the initial lists, the buzzer is still present and the system is never reported safe |
| Dashboard.RunTicks | src/components/SafetyDashboard.tsx:117-131 | any number of firings keep the flags and leave the lists as their successive flips; if the outputs held the buzzer, they still do and the system is reported unsafe |

## Left out

- The presentational components `StatusIndicator` and `SafetyCondition` only map a status to style classes and icons.
- The JSX render tree is left out, including the Contactors panel (`SafetyDashboard.tsx:136-261`, `202-212`). It only re-displays values the aggregator computes.
- `handleVirtualReset` (`SafetyDashboard.tsx:100-113`) only raises notifications through `toast` and a timer; it changes no state.
- `Math.random`, `setInterval`, `clearInterval` and the React state and effect lifecycle are left out. The random outcomes are the `TickDraw` parameter; timing and unmount cleanup are not modelled.
- `Dashboard.Selected` has one mask entry per signal. A mask shorter than the list leaves the uncovered signals unchanged, which stands for draws that came out at or above the threshold.
- `Grouping.GroupByCategory` enumerates keys in insertion order. The JavaScript rule that puts integer-like keys first, and keys inherited from the object prototype, are not modelled; no category in the data has such a name.
- The optional `errorMessage` field of a signal is carried along but never read, as in the code.
- Aggregator.Failed: states only its length bound; its meaning is stated by `FailedMembers`, `FailedAppend` and `FailedKeepsOrder`.
- Aggregator.WithoutBuzzer: states only its length bound; its meaning is stated by `WithoutBuzzerMembers` and `WithoutBuzzerAppend`.
