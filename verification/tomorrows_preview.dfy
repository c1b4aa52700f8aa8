/** The "Tomorrow's Preview" heading: from today's weekday (0 = Sunday ..
    6 = Saturday) it picks the next working weekday (Monday to Friday) and the
    number of calendar days to add to today's date to reach it. */
module TomorrowsPreview {

  const DayNames: seq<string> :=
    ["Sunday", "Monday", "Tuesday", "Wednesday", "Thursday", "Friday", "Saturday"]

  predicate IsWorkingDay(weekday: int) {
    1 <= weekday <= 5
  }

  /** The weekday `k` calendar days after `today`. */
  function WeekdayAfter(today: int, k: int): int {
    (today + k) % 7
  }

  datatype NextDay = NextDay(weekday: int, offset: int)

  /** The shown weekday is the first working day strictly after today, and the
      offset is the number of days to it: 1 from Sunday to Thursday, 3 from
      Friday, 2 from Saturday. */
  function NextWorkingDay(today: int): (r: NextDay)
    requires 0 <= today <= 6
    ensures IsWorkingDay(r.weekday)
    ensures 1 <= r.offset <= 3
    ensures WeekdayAfter(today, r.offset) == r.weekday
    ensures forall k :: 1 <= k < r.offset ==> !IsWorkingDay(WeekdayAfter(today, k))
  {
    var next := today + 1;
    if next == 6 || next == 0 || next == 7 then
      NextDay(1, 8 - today)
    else
      NextDay(next, 1)
  }

  /** `dayNames[nextDay]`: always in range, and always the name of the weekday
      the shown date falls on. */
  function NextDayName(today: int): (name: string)
    requires 0 <= today <= 6
    ensures name in DayNames[1..6]
    ensures name == DayNames[WeekdayAfter(today, NextWorkingDay(today).offset)]
  {
    DayNames[NextWorkingDay(today).weekday]
  }

  /** Monday to Thursday step to the following day. */
  lemma MidweekStepsOneDay(today: int)
    requires 1 <= today <= 4
    ensures NextWorkingDay(today) == NextDay(today + 1, 1)
  {
  }

  /** Friday and Saturday roll forward to Monday, 3 and 2 days ahead. */
  lemma WeekendRollsToMonday(today: int)
    requires today == 5 || today == 6
    ensures NextWorkingDay(today) == NextDay(1, 8 - today)
    ensures today == 5 ==> NextWorkingDay(today).offset == 3
    ensures today == 6 ==> NextWorkingDay(today).offset == 2
  {
  }

  /** Sunday reaches Monday through the ordinary branch, one day ahead. */
  lemma SundayStepsToMonday()
    ensures NextWorkingDay(0) == NextDay(1, 1)
  {
  }

  /** The `nextDay === 0` test never fires: the roll-forward branch is taken
      exactly on Friday and Saturday. */
  lemma RollForwardExactlyFridaySaturday(today: int)
    requires 0 <= today <= 6
    ensures today + 1 != 0
    ensures (today + 1 == 6 || today + 1 == 7) <==> NextWorkingDay(today).offset != 1
  {
  }
}
