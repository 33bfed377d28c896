/**
 * Width attributes (`ss:Width`, `ss:DefaultColumnWidth`, the width slot of a
 * font, the nominal width of a field) are numeric strings that may be empty.
 * `isGreater` and `maxValue` compare them numerically, reading "" as 0.
 */
module Widths {

  /** A width attribute: empty, or a non-negative whole number. */
  datatype Measure = Blank | Amount(n: nat)

  /** The number a width attribute stands for: an empty attribute is 0. */
  function Value(m: Measure): nat {
    match m
    case Blank => 0
    case Amount(n) => n
  }

  /** `isGreater(first, second)`: true when first's number exceeds second's. */
  predicate IsGreater(first: Measure, second: Measure) {
    Value(first) > Value(second)
  }

  function Max(a: nat, b: nat): nat {
    if a >= b then a else b
  }

  /**
   * `maxValue(first, second, third, fourth)`: an empty first becomes "0", then
   * each later argument replaces the running maximum when strictly greater.
   * The answer is one of the arguments, is never empty, and its number is the
   * largest of the four numbers.
   */
  function MaxValue(first: Measure, second: Measure, third: Measure, fourth: Measure): (r: Measure)
    ensures r == (if first == Blank then Amount(0) else first) || r == second || r == third || r == fourth
    ensures r.Amount?
    ensures Value(r) >= Value(first) && Value(r) >= Value(second)
    ensures Value(r) >= Value(third) && Value(r) >= Value(fourth)
    ensures Value(r) == Max(Max(Value(first), Value(second)), Max(Value(third), Value(fourth)))
  {
    var start := if first == Blank then Amount(0) else first;
    var m1 := if IsGreater(second, start) then second else start;
    var m2 := if IsGreater(third, m1) then third else m1;
    if IsGreater(fourth, m2) then fourth else m2
  }

  /** Ties go to the earlier argument: a later one is chosen only when strictly greater. */
  lemma MaxValueKeepsEarlierOnTies(first: Measure, second: Measure, third: Measure, fourth: Measure)
    requires first.Amount?
    requires Value(second) <= Value(first) && Value(third) <= Value(first) && Value(fourth) <= Value(first)
    ensures MaxValue(first, second, third, fourth) == first
  {
  }

  /**
   * One step of the width widening in `processColumnCells`:
   * `if (isGreater(candidate, width)) width = candidate`.
   */
  function Widen(width: nat, candidate: Measure): (r: nat)
    ensures r == Max(width, Value(candidate))
  {
    if IsGreater(candidate, Amount(width)) then Value(candidate) else width
  }

  /** The column width candidate: the table default when it is greater than the column's own. */
  function Candidate(defaultWidth: Measure, width: Measure): (r: Measure)
    ensures r == defaultWidth || r == width
    ensures Value(r) == Max(Value(defaultWidth), Value(width))
  {
    if IsGreater(defaultWidth, width) then defaultWidth else width
  }
}
