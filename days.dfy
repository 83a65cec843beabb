/** The five working days and the fixed successor table `NEXT_DAY`. */
module Days {
  import opened Wrappers

  datatype Day = M | T | W | R | F

  /** `DAYS`: the order in which the driver visits the day buckets. */
  const DAYS: seq<Day> := [M, T, W, R, F]

  /** Position of a day in `DAYS`. */
  function Ordinal(d: Day): (n: nat)
    ensures n < 5 && DAYS[n] == d
  {
    match d
    case M => 0
    case T => 1
    case W => 2
    case R => 3
    case F => 4
  }

  /** `NEXT_DAY[d]`: Friday has no entry, so the lookup is `undefined`. */
  function NextDay(d: Day): Option<Day>
  {
    match d
    case M => Some(T)
    case T => Some(W)
    case W => Some(R)
    case R => Some(F)
    case F => None
  }

  /** `daysAreConsecutive(parentDay, childDay)`: `NEXT_DAY[parentDay] === childDay`. */
  predicate DaysAreConsecutive(parentDay: Day, childDay: Day)
  {
    NextDay(parentDay) == Some(childDay)
  }

  /** The successor table is the "next position in DAYS" relation. */
  lemma NextDayIsSuccessor(d: Day)
    ensures NextDay(d).Some? <==> Ordinal(d) < 4
    ensures NextDay(d).Some? ==> Ordinal(NextDay(d).value) == Ordinal(d) + 1
  {
  }

  /** `daysAreConsecutive(a, b)` holds exactly when b immediately follows a;
      so never for equal days, reversed or skipped pairs, or any pair from Friday. */
  lemma ConsecutiveIffSuccessor(a: Day, b: Day)
    ensures DaysAreConsecutive(a, b) <==> Ordinal(b) == Ordinal(a) + 1
    ensures a == b || Ordinal(b) < Ordinal(a) || Ordinal(b) > Ordinal(a) + 1 || a == F
            ==> !DaysAreConsecutive(a, b)
  {
  }

  /** The 25-case table the test suite checks, as one statement over all pairs. */
  lemma ConsecutiveTable()
    ensures forall a: Day, b: Day :: DaysAreConsecutive(a, b) <==>
      (a, b) == (M, T) || (a, b) == (T, W) || (a, b) == (W, R) || (a, b) == (R, F)
  {
  }

  /** The one-letter code used in the input file. */
  function DayCode(d: Day): string
  {
    match d
    case M => "M"
    case T => "T"
    case W => "W"
    case R => "R"
    case F => "F"
  }

  /** The day whose bucket `shipmentsByDay[code]` names; any other code has
      no bucket (the source then fails when it pushes onto `undefined`). */
  function ParseDay(code: string): (r: Option<Day>)
    ensures r.Some? ==> DayCode(r.value) == code
  {
    if code == "M" then Some(M)
    else if code == "T" then Some(T)
    else if code == "W" then Some(W)
    else if code == "R" then Some(R)
    else if code == "F" then Some(F)
    else None
  }

  /** Day codes round-trip through `ParseDay`. */
  lemma ParseDayCode(d: Day)
    ensures ParseDay(DayCode(d)) == Some(d)
  {
  }
}
