/** The status badge of a class card: from a class's start and end times and
    the current instant it picks one of Ongoing, Upcoming (with a countdown in
    whole minutes, rounded up) or Completed, in that order of precedence, and
    the texts and colour classes shown for it and for the course type. */
module ClassCard {
  import ClockTime
  import Decimal

  datatype Status = Ongoing | Upcoming(minutesLeft: nat) | Completed

  /** `Math.ceil(ms / 60000)` for a positive number of milliseconds: the
      fewest whole minutes that cover `ms`. */
  function CeilMinutes(ms: int): (n: nat)
    requires ms > 0
    ensures n >= 1
    ensures (n - 1) * ClockTime.MsPerMinute < ms <= n * ClockTime.MsPerMinute
  {
    (ms + ClockTime.MsPerMinute - 1) / ClockTime.MsPerMinute
  }

  /** The status at instant `now` of a class running from `startMs` to `endMs`
      (all milliseconds since midnight). Both boundaries count as Ongoing;
      Upcoming wins over Completed when a malformed slot makes both hold. */
  function StatusAt(startMs: int, endMs: int, now: int): (r: Status)
    ensures r.Ongoing? <==> startMs <= now <= endMs
    ensures r.Upcoming? <==> now < startMs
    ensures r.Completed? <==> startMs <= now && endMs < now
    ensures r.Completed? ==> now > endMs
    ensures r.Upcoming? ==>
      && r.minutesLeft >= 1
      && (r.minutesLeft - 1) * ClockTime.MsPerMinute < startMs - now <= r.minutesLeft * ClockTime.MsPerMinute
  {
    var isOngoing := now >= startMs && now <= endMs;
    var isUpcoming := now < startMs;
    if isOngoing then Ongoing
    else if isUpcoming then Upcoming(CeilMinutes(startMs - now))
    else Completed
  }

  /** The status of a class given by its "HH:MM" start and end times. */
  function ClassStatus(startTime: string, endTime: string, now: int): (r: Status)
    requires ClockTime.WellFormed(startTime) && ClockTime.WellFormed(endTime)
    ensures r.Ongoing? <==>
      (ClockTime.Hour(startTime) * 60 + ClockTime.Minute(startTime)) * ClockTime.MsPerMinute <= now
      <= (ClockTime.Hour(endTime) * 60 + ClockTime.Minute(endTime)) * ClockTime.MsPerMinute
    ensures r.Upcoming? <==>
      now < (ClockTime.Hour(startTime) * 60 + ClockTime.Minute(startTime)) * ClockTime.MsPerMinute
  {
    StatusAt(ClockTime.MillisOfDay(startTime), ClockTime.MillisOfDay(endTime), now)
  }

  /** The badge text: "Ongoing", "Starts in N mins" or "Completed". */
  function StatusText(s: Status): (r: string)
    ensures s.Ongoing? ==> r == "Ongoing"
    ensures s.Completed? ==> r == "Completed"
    ensures s.Upcoming? ==>
      && |r| > 15
      && r[..10] == "Starts in "
      && r[|r| - 5..] == " mins"
      && Decimal.AllDigits(r[10..|r| - 5])
      && r[10..|r| - 5] == Decimal.Text(s.minutesLeft)
      && Decimal.Value(r[10..|r| - 5]) == s.minutesLeft
  {
    match s
    case Ongoing => "Ongoing"
    case Completed => "Completed"
    case Upcoming(n) =>
      var r := "Starts in " + Decimal.Text(n) + " mins";
      assert r[10..|r| - 5] == Decimal.Text(n);
      Decimal.ValueOfText(n);
      r
  }

  const OngoingColor := "bg-green-100 text-green-700 border-green-200"
  const UpcomingColor := "bg-blue-100 text-blue-700 border-blue-200"
  const CompletedColor := "bg-gray-100 text-gray-600"

  /** The badge colour classes: green while Ongoing, blue while Upcoming and
      grey once Completed, the grey being the default. */
  function StatusColor(s: Status): (r: string)
    ensures r == OngoingColor <==> s.Ongoing?
    ensures r == UpcomingColor <==> s.Upcoming?
    ensures r == CompletedColor <==> s.Completed?
  {
    match s
    case Ongoing => OngoingColor
    case Upcoming(_) => UpcomingColor
    case Completed => CompletedColor
  }

  /** Colour and icon follow the status kind alone: two statuses share them
      exactly when they are the same kind (countdowns aside). */
  lemma BadgeFollowsKind(a: Status, b: Status)
    ensures StatusColor(a) == StatusColor(b) <==> Rank(a) == Rank(b)
    ensures StatusIcon(a) == StatusIcon(b) <==> Rank(a) == Rank(b)
  {
  }

  const OngoingIcon := "\U{1F534}"
  const UpcomingIcon := "\U{23F0}"
  const CompletedIcon := "\U{2713}"

  /** The badge icon: a red circle while Ongoing, an alarm clock while
      Upcoming and a check mark once Completed, the check mark being the default. */
  function StatusIcon(s: Status): (r: string)
    ensures r == OngoingIcon <==> s.Ongoing?
    ensures r == UpcomingIcon <==> s.Upcoming?
    ensures r == CompletedIcon <==> s.Completed?
  {
    match s
    case Ongoing => OngoingIcon
    case Upcoming(_) => UpcomingIcon
    case Completed => CompletedIcon
  }

  const PracticalColor := "bg-purple-100 text-purple-700"
  const TheoryColor := "bg-blue-100 text-blue-700"

  /** The course-type chip is purple exactly for practicals and blue otherwise. */
  function TypeColor(kind: string): (r: string)
    ensures r == PracticalColor <==> kind == "Practical"
    ensures r == TheoryColor <==> kind != "Practical"
  {
    if kind == "Practical" then PracticalColor else TheoryColor
  }

  /** The badge text alone tells which status, and which countdown, is shown. */
  lemma StatusTextInjective(a: Status, b: Status)
    requires StatusText(a) == StatusText(b)
    ensures a == b
  {
    var r := StatusText(a);
    if a.Upcoming? && b.Upcoming? {
      assert Decimal.Value(r[10..|r| - 5]) == a.minutesLeft == b.minutesLeft;
    }
  }

  /** As time advances the countdown never goes up, and a class that is
      Upcoming later was Upcoming earlier too. */
  lemma CountdownNonIncreasing(startMs: int, endMs: int, now1: int, now2: int)
    requires now1 <= now2
    requires StatusAt(startMs, endMs, now2).Upcoming?
    ensures StatusAt(startMs, endMs, now1).Upcoming?
    ensures StatusAt(startMs, endMs, now2).minutesLeft <= StatusAt(startMs, endMs, now1).minutesLeft
  {
    var n1 := StatusAt(startMs, endMs, now1).minutesLeft;
    var n2 := StatusAt(startMs, endMs, now2).minutesLeft;
    assert (n2 - 1) * ClockTime.MsPerMinute < startMs - now2 <= startMs - now1 <= n1 * ClockTime.MsPerMinute;
  }

  function Rank(s: Status): nat {
    match s
    case Upcoming(_) => 0
    case Ongoing => 1
    case Completed => 2
  }

  /** For a slot with start <= end the status only moves forward in time:
      Upcoming, then Ongoing, then Completed. */
  lemma StatusMonotone(startMs: int, endMs: int, now1: int, now2: int)
    requires startMs <= endMs
    requires now1 <= now2
    ensures Rank(StatusAt(startMs, endMs, now1)) <= Rank(StatusAt(startMs, endMs, now2))
  {
  }

  /** A slot whose end precedes its start shows Upcoming between the two. */
  lemma MalformedSlotShowsUpcoming(startMs: int, endMs: int, now: int)
    requires endMs < now < startMs
    ensures StatusAt(startMs, endMs, now).Upcoming?
  {
  }

  /** A class from 09:00 to 09:55, seen at 08:46:30, shows "Starts in 14 mins":
      the 13.5 minutes left are rounded up, not down. */
  lemma CountdownRoundsUp()
    ensures ClassStatus("09:00", "09:55", (8 * 60 + 46) * ClockTime.MsPerMinute + 30000) == Upcoming(14)
  {
    ClockTime.MillisOfFormat(9, 0);
    assert ClockTime.Format(9, 0) == "09:00";
  }
}
