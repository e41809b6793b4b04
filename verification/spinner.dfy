/** The part of Swing's `SpinnerNumberModel` the page spinner relies on: an
    integer value with inclusive bounds and a step, the "next" and
    "previous" values that are absent beyond the bounds, and `setValue`,
    which notifies its listener only when the value actually changes. */
module Spinner {
  import opened Wrappers

  datatype Spinner = Spinner(value: int, minimum: int, maximum: int, step: int)

  predicate InBounds(s: Spinner) {
    s.minimum <= s.value <= s.maximum
  }

  /** The constructor rejects an initial value outside the bounds. */
  function NewSpinner(value: int, minimum: int, maximum: int, step: int): (s: Spinner)
    requires minimum <= value <= maximum
    ensures InBounds(s)
    ensures s.value == value && s.minimum == minimum && s.maximum == maximum
  {
    Spinner(value, minimum, maximum, step)
  }

  /** `getNextValue`: one step up, absent when that passes the maximum. */
  function NextValue(s: Spinner): (r: Option<int>)
    ensures r.Some? ==> r.value == s.value + s.step && r.value <= s.maximum
  {
    if s.value + s.step > s.maximum then None else Some(s.value + s.step)
  }

  /** `getPreviousValue`: one step down, absent when that passes the minimum. */
  function PreviousValue(s: Spinner): (r: Option<int>)
    ensures r.Some? ==> r.value == s.value - s.step && r.value >= s.minimum
  {
    if s.value - s.step < s.minimum then None else Some(s.value - s.step)
  }

  /** `setValue`: the new model and whether listeners were notified. */
  function SetValue(s: Spinner, v: int): (r: (Spinner, bool))
    ensures r.0.value == v
    ensures r.0.minimum == s.minimum && r.0.maximum == s.maximum && r.0.step == s.step
    ensures r.1 <==> v != s.value
  {
    if v == s.value then (s, false) else (s.(value := v), true)
  }

  /** With step 1 and a value in bounds, "next" exists exactly below the
      maximum and "previous" exactly above the minimum, and neither leaves
      the bounds. */
  lemma UnitStepNeighbours(s: Spinner)
    requires InBounds(s) && s.step == 1
    ensures NextValue(s).Some? <==> s.value < s.maximum
    ensures PreviousValue(s).Some? <==> s.value > s.minimum
    ensures NextValue(s).Some? ==> InBounds(SetValue(s, NextValue(s).value).0)
    ensures PreviousValue(s).Some? ==> InBounds(SetValue(s, PreviousValue(s).value).0)
  {
  }

  /** Stepping forward and then back returns to the starting value. */
  lemma NextThenPrevious(s: Spinner)
    requires InBounds(s) && s.step > 0
    requires NextValue(s).Some?
    ensures PreviousValue(SetValue(s, NextValue(s).value).0) == Some(s.value)
  {
  }
}
