/** The two lines of the progress text: the time lived and the time that
    remains, each a formatted number followed by the unit word. The number
    formatting (`toFixed(1)`) is passed in as `fmt`. */
module ProgressText {
  import opened LifeGridInputs

  /** `timeUnit.slice(0, -1)`: the unit without its last character ("" stays ""). */
  function UnitLabel(timeUnit: string): (r: string)
    ensures |timeUnit| > 0 ==> r + [timeUnit[|timeUnit| - 1]] == timeUnit
    ensures |timeUnit| == 0 ==> r == ""
  {
    if |timeUnit| == 0 then "" else timeUnit[..|timeUnit| - 1]
  }

  /** The unit word: the label, with an "s" unless the value is exactly 1. */
  function UnitWord(timeUnit: string, value: real): (w: string)
    ensures value == 1.0 ==> w == UnitLabel(timeUnit)
    ensures value != 1.0 ==> w == UnitLabel(timeUnit) + "s"
    ensures value != 1.0 && |timeUnit| > 0 && timeUnit[|timeUnit| - 1] == 's' ==> w == timeUnit
  {
    UnitLabel(timeUnit) + (if value == 1.0 then "" else "s")
  }

  /** A line `<fmt(value)> <unit word><ending>`. */
  function Line(fmt: real -> string, value: real, timeUnit: string, ending: string): (r: string)
    ensures |r| == |fmt(value)| + 1 + |UnitWord(timeUnit, value)| + |ending|
    ensures r[..|fmt(value)|] == fmt(value) && r[|fmt(value)|] == ' '
    ensures r[|fmt(value)| + 1..|r| - |ending|] == UnitWord(timeUnit, value)
    ensures r[|r| - |ending|..] == ending
  {
    var r := fmt(value) + " " + UnitWord(timeUnit, value) + ending;
    assert r[..|fmt(value)|] == fmt(value);
    r
  }

  /** The first line: the lived value, a space, the unit word, then " lived". */
  function LivedLine(fmt: real -> string, lived: real, timeUnit: string): (r: string)
    ensures |r| >= |fmt(lived)| + 7 && r[|r| - 6..] == " lived"
    ensures r[..|fmt(lived)|] == fmt(lived) && r[|fmt(lived)|] == ' '
    ensures r[|fmt(lived)| + 1..|r| - 6] == UnitWord(timeUnit, lived)
  {
    Line(fmt, lived, timeUnit, " lived")
  }

  /** The second line: the remaining value, a space, the unit word, then " remain". */
  function RemainLine(fmt: real -> string, remaining: real, timeUnit: string): (r: string)
    ensures |r| >= |fmt(remaining)| + 8 && r[|r| - 7..] == " remain"
    ensures r[..|fmt(remaining)|] == fmt(remaining) && r[|fmt(remaining)|] == ' '
    ensures r[|fmt(remaining)| + 1..|r| - 7] == UnitWord(timeUnit, remaining)
  {
    Line(fmt, remaining, timeUnit, " remain")
  }

  /** In the three views that have a grid, the unit word is the one the
      totals line uses for the same value. */
  lemma UnitWordMatchesSuffix(timeUnit: string, value: real)
    requires timeUnit in {"years", "months", "weeks"}
    ensures UnitWord(timeUnit, value) == TimeUnitSuffix(timeUnit, value)
  {
  }
}
