/** The records the safety dashboard works on: signals, derived conditions,
    the top-level status flags, and the substring test used on labels. */
module Signals {

  datatype Option<+T> = None | Some(value: T)

  /** One named boolean telemetry point (an input sensor or interlock, or an
      output contactor or alarm). `labelText` is the `label` field, a
      reserved word in Dafny. */
  datatype Signal = Signal(
    id: string,
    labelText: string,
    currentState: bool,
    category: string,
    errorMessage: Option<string>)

  /** A derived pass/fail fact with its display label and fault text. */
  datatype Condition = Condition(labelText: string, status: bool, errorMessage: string)

  /** The dashboard's top-level boolean flags. Only the first two ever enter
      the condition list; the others are held but never consulted. */
  datatype Flags = Flags(
    isOnline: bool,
    isConnectedToPLC: bool,
    isTimeout: bool,
    isPlatformSafe: bool,
    isWheelbaseSet: bool,
    isChargerSafe: bool,
    isStageSafe: bool,
    isPodSafe: bool)

  /** The input whose condition is active-low. */
  const HOLD_TO_RUN_ID: string := "hold-to-run"

  /** The output alarm that is looked up again for the final condition. */
  const BUZZER_ID: string := "isolation-fault-buzzer"

  predicate StartsWith(s: string, prefix: string) {
    |prefix| <= |s| && s[..|prefix|] == prefix
  }

  /** `s.includes(sub)`: `sub` occurs somewhere in `s` as a contiguous run. */
  predicate Contains(s: string, sub: string)
    decreases |s|
  {
    StartsWith(s, sub) || (|s| > 0 && Contains(s[1..], sub))
  }

  /** `sub` occurs in `s` starting at index `i`. */
  predicate OccursAt(s: string, sub: string, i: int) {
    0 <= i && i + |sub| <= |s| && s[i..i + |sub|] == sub
  }

  /** The scanning definition of `Contains` agrees with the positional one. */
  lemma {:induction false} ContainsIffOccurs(s: string, sub: string)
    ensures Contains(s, sub) <==> exists i :: OccursAt(s, sub, i)
    decreases |s|
  {
    if |s| > 0 {
      ContainsIffOccurs(s[1..], sub);
      if StartsWith(s, sub) {
        assert OccursAt(s, sub, 0);
      } else if Contains(s[1..], sub) {
        var j :| OccursAt(s[1..], sub, j);
        assert s[j + 1..j + 1 + |sub|] == s[1..][j..j + |sub|];
        assert OccursAt(s, sub, j + 1);
      }
      if i :| OccursAt(s, sub, i) {
        if i == 0 {
          assert StartsWith(s, sub);
        } else {
          assert s[1..][i - 1..i - 1 + |sub|] == s[i..i + |sub|];
          assert OccursAt(s[1..], sub, i - 1);
        }
      }
    } else {
      if Contains(s, sub) {
        assert OccursAt(s, sub, 0);
      }
      if i :| OccursAt(s, sub, i) {
        assert |sub| == 0;
        assert StartsWith(s, sub);
      }
    }
  }
}
