/** Wall-clock times of day as the class card reads them: an "HH:MM" string is
    split at the colon, both halves are read as numbers, and a same-day date is
    set to that hour and minute with seconds and milliseconds zero. Times are
    integer milliseconds since local midnight. */
module ClockTime {
  import Decimal

  const MsPerMinute: nat := 60000

  /** Two digits, a colon, two digits. */
  predicate WellFormed(s: string) {
    && |s| == 5
    && Decimal.IsDigit(s[0]) && Decimal.IsDigit(s[1])
    && s[2] == ':'
    && Decimal.IsDigit(s[3]) && Decimal.IsDigit(s[4])
  }

  function Hour(s: string): nat
    requires WellFormed(s)
  {
    Decimal.Value(s[..2])
  }

  function Minute(s: string): nat
    requires WellFormed(s)
  {
    Decimal.Value(s[3..])
  }

  /** The instant `setHours(hour, minute, 0, 0)` gives, as milliseconds since
      midnight: a whole number of minutes, never past 99:99. */
  function MillisOfDay(s: string): (ms: nat)
    requires WellFormed(s)
    ensures ms % MsPerMinute == 0
    ensures ms <= (99 * 60 + 99) * MsPerMinute
  {
    TwoDigitValue(s[0], s[1]);
    TwoDigitValue(s[3], s[4]);
    assert s[..2] == [s[0], s[1]] && s[3..] == [s[3], s[4]];
    (Hour(s) * 60 + Minute(s)) * MsPerMinute
  }

  /** The zero-padded "HH:MM" text of an hour and a minute below 100. */
  function Format(hour: nat, minute: nat): (s: string)
    requires hour < 100 && minute < 100
    ensures WellFormed(s)
  {
    [ Decimal.DigitChar(hour / 10), Decimal.DigitChar(hour % 10), ':',
      Decimal.DigitChar(minute / 10), Decimal.DigitChar(minute % 10) ]
  }

  lemma TwoDigitValue(a: char, b: char)
    requires Decimal.IsDigit(a) && Decimal.IsDigit(b)
    ensures Decimal.Value([a, b]) == 10 * Decimal.DigitValue(a) + Decimal.DigitValue(b)
  {
    assert [a, b][..1] == [a];
    assert [a][..0] == [];
    assert Decimal.Value([a]) == Decimal.DigitValue(a);
  }

  /** Parsing a formatted time gives back its hour and minute, so the instant is
      hour * 60 + minute minutes after midnight. */
  lemma MillisOfFormat(hour: nat, minute: nat)
    requires hour < 100 && minute < 100
    ensures Hour(Format(hour, minute)) == hour
    ensures Minute(Format(hour, minute)) == minute
    ensures MillisOfDay(Format(hour, minute)) == (hour * 60 + minute) * MsPerMinute
  {
    var s := Format(hour, minute);
    assert s[..2] == [s[0], s[1]] && s[3..] == [s[3], s[4]];
    TwoDigitValue(s[0], s[1]);
    TwoDigitValue(s[3], s[4]);
  }

  /** Every well-formed time is the formatted text of its own hour and minute. */
  lemma FormatOfParse(s: string)
    requires WellFormed(s)
    ensures Hour(s) < 100 && Minute(s) < 100
    ensures Format(Hour(s), Minute(s)) == s
  {
    assert s[..2] == [s[0], s[1]] && s[3..] == [s[3], s[4]];
    TwoDigitValue(s[0], s[1]);
    TwoDigitValue(s[3], s[4]);
  }
}
