/** The single schedule document: the academic term, the registered courses
    and the Monday-to-Friday class timetable, seeded once from a constant. */
module Schedules {
  import opened Db
  import ClockTime

  datatype Course = Course(code: string, name: string, kind: string, faculty: string)

  datatype Slot = Slot(start: string, end: string, code: string, typeNote: Option<string>, room: string)

  datatype Timetable = Timetable(
    monday: seq<Slot>,
    tuesday: seq<Slot>,
    wednesday: seq<Slot>,
    thursday: seq<Slot>,
    friday: seq<Slot>)

  datatype Schedule = Schedule(academicYear: string, registeredCourses: seq<Course>, classTimetable: Timetable)

  function Lesson(start: string, end: string, code: string, room: string): Slot {
    Slot(start, end, code, None, room)
  }

  function Lab(start: string, end: string, code: string, room: string): Slot {
    Slot(start, end, code, Some("3-Hour Lab Session"), room)
  }

  const SeedCourses: seq<Course> :=
    [ Course("CS3009", "Operating Systems", "Theory", "Manmath Narayan Sahoo"),
      Course("CS3001", "Data Communication", "Theory", "Pabitra Mohan Khilar"),
      Course("CS3011", "Formal Language and Automata Theory", "Theory", "Ramesh Kumar Mohapatra"),
      Course("CS3014", "IoT and Embedded Systems", "Theory", "Suchismita Chinara"),
      Course("ER4231", "Science of Climate and Climate Change", "Theory", "Krishna Kishore Osari"),
      Course("CS3065", "IoT Prototyping Laboratory", "Practical", "Suchismita Chinara"),
      Course("CS3071", "Operating Systems Laboratory", "Practical", "Bibhudatta Sahoo"),
      Course("CS3077", "Web and Mobile Application Development", "Practical", "Puneet Kumar Jain") ]

  const SeedMonday: seq<Slot> :=
    [ Lab("08:00", "10:55", "CS3065", "(# HW LAB)"),
      Lesson("11:05", "12:00", "ER4231", "(#)"),
      Lesson("14:15", "15:10", "CS3011", "(# CS325)"),
      Lesson("15:15", "16:10", "CS3014", "(# CS325)"),
      Lesson("17:20", "18:15", "CS3001", "(# CS231)") ]

  const SeedTuesday: seq<Slot> :=
    [ Lesson("11:05", "12:00", "ER4231", "(#)"),
      Lesson("13:15", "14:10", "CS3011", "(# CS325)"),
      Lesson("14:15", "15:10", "CS3014", "(# CS325)") ]

  const SeedWednesday: seq<Slot> :=
    [ Lab("09:00", "11:55", "CS3071", "(# SL-II)"),
      Lesson("13:15", "14:10", "CS3009", "(# CS325)"),
      Lesson("17:20", "18:15", "CS3001", "(# CS231)") ]

  const SeedThursday: seq<Slot> :=
    [ Lesson("11:05", "12:00", "CS3009", "(# CS325)"),
      Lesson("13:15", "14:10", "CS3014", "(# CS325)") ]

  const SeedFriday: seq<Slot> :=
    [ Lesson("11:05", "12:00", "ER4231", "(#)"),
      Lesson("15:15", "16:10", "CS3011", "(# CS325)"),
      Lesson("16:20", "17:15", "CS3009", "(# CS325)"),
      Lesson("17:20", "18:15", "CS3001", "(# CS231)") ]

  /** The document `initializeSchedule` inserts. */
  const Seed: Schedule := Schedule(
    "2025-26/Autumn",
    SeedCourses,
    Timetable(SeedMonday, SeedTuesday, SeedWednesday, SeedThursday, SeedFriday))

  /** `getScheduleData`: the earliest schedule document, or null when there is none. */
  function GetScheduleData(t: Table<Schedule>): (r: Option<Row<Schedule>>)
    ensures r.None? <==> |t.rows| == 0
    ensures r.Some? ==> r.value in t.rows
    ensures r.Some? && Valid(t) ==> forall x :: x in t.rows ==> r.value.id <= x.id
  {
    if |t.rows| == 0 then None else Some(t.rows[0])
  }

  /** `initializeSchedule`: with a schedule present, returns the earliest one's
      id and inserts nothing; on an empty table inserts the seeded schedule. */
  function InitializeSchedule(t: Table<Schedule>): (r: Stored<Schedule>)
    ensures |t.rows| > 0 ==> r.table == t && r.id == t.rows[0].id
    ensures |t.rows| == 0 ==> r.table.rows == [Row(r.id, Seed)]
    ensures Valid(t) ==> Valid(r.table)
  {
    if |t.rows| > 0 then Stored(t, t.rows[0].id) else Insert(t, Seed)
  }

  /** Initializing again after an initialization changes nothing and returns
      the same id, so repeated calls never create a second schedule. */
  lemma InitializeScheduleIdempotent(t: Table<Schedule>)
    ensures InitializeSchedule(InitializeSchedule(t).table) == InitializeSchedule(t)
    ensures |t.rows| <= 1 ==> |InitializeSchedule(t).table.rows| == 1
  {
  }

  /** The id `initializeSchedule` returns is that of the document `getScheduleData` reads. */
  lemma InitializeThenGet(t: Table<Schedule>)
    ensures GetScheduleData(InitializeSchedule(t).table).Some?
    ensures GetScheduleData(InitializeSchedule(t).table).value.id == InitializeSchedule(t).id
    ensures |t.rows| == 0 ==> GetScheduleData(InitializeSchedule(t).table).value.doc == Seed
  {
  }

  function StartMs(s: Slot): nat
    requires ClockTime.WellFormed(s.start)
  {
    ClockTime.MillisOfDay(s.start)
  }

  function EndMs(s: Slot): nat
    requires ClockTime.WellFormed(s.end)
  {
    ClockTime.MillisOfDay(s.end)
  }

  predicate SlotWellFormed(s: Slot, courses: seq<Course>) {
    && ClockTime.WellFormed(s.start)
    && ClockTime.WellFormed(s.end)
    && StartMs(s) < EndMs(s)
    && exists c :: c in courses && c.code == s.code
  }

  /** Every slot is well formed and each ends before the next one starts,
      checked from the front. */
  predicate Chained(slots: seq<Slot>, courses: seq<Course>) {
    |slots| == 0 ||
    ( && SlotWellFormed(slots[0], courses)
      && (|slots| >= 2 ==> ClockTime.WellFormed(slots[1].start) && EndMs(slots[0]) < StartMs(slots[1]))
      && Chained(slots[1..], courses))
  }

  /** A day's slots are sorted by start and no two of them overlap. */
  predicate Disjoint(slots: seq<Slot>, courses: seq<Course>) {
    && (forall i :: 0 <= i < |slots| ==> SlotWellFormed(slots[i], courses))
    && (forall i, j :: 0 <= i < j < |slots| ==> EndMs(slots[i]) < StartMs(slots[j]))
  }

  /** Checking neighbours is enough: a chained day has no overlap anywhere. */
  lemma {:induction false} ChainedIsDisjoint(slots: seq<Slot>, courses: seq<Course>)
    requires Chained(slots, courses)
    ensures Disjoint(slots, courses)
  {
    if |slots| >= 2 {
      var rest := slots[1..];
      ChainedIsDisjoint(rest, courses);
      forall i, j | 0 <= i < j < |slots|
        ensures EndMs(slots[i]) < StartMs(slots[j])
      {
        if i > 0 {
          assert slots[i] == rest[i - 1] && slots[j] == rest[j - 1];
        } else if j > 1 {
          assert slots[1] == rest[0] && slots[j] == rest[j - 1];
          assert EndMs(slots[1]) < StartMs(slots[j]);
        }
      }
    }
  }

  /** The course codes of the seeded courses, position by position. */
  predicate HasSeedCodes(c: seq<Course>) {
    && |c| == 8
    && c[0].code == "CS3009" && c[1].code == "CS3001" && c[2].code == "CS3011" && c[3].code == "CS3014"
    && c[4].code == "ER4231" && c[5].code == "CS3065" && c[6].code == "CS3071" && c[7].code == "CS3077"
  }

  /** One slot's times are the given hours and minutes and its code is that
      of the k-th course. */
  lemma SlotAt(x: Slot, courses: seq<Course>, k: nat, sh: nat, sm: nat, eh: nat, em: nat)
    requires sh < 100 && sm < 100 && eh < 100 && em < 100
    requires x.start == ClockTime.Format(sh, sm) && x.end == ClockTime.Format(eh, em)
    requires sh * 60 + sm < eh * 60 + em
    requires k < |courses| && courses[k].code == x.code
    ensures SlotWellFormed(x, courses)
    ensures StartMs(x) == (sh * 60 + sm) * ClockTime.MsPerMinute
    ensures EndMs(x) == (eh * 60 + em) * ClockTime.MsPerMinute
  {
    ClockTime.MillisOfFormat(sh, sm);
    ClockTime.MillisOfFormat(eh, em);
    assert courses[k] in courses;
  }

  /** One step of `Chained`, on the suffix of `slots` from position k. */
  lemma ChainStep(slots: seq<Slot>, courses: seq<Course>, k: nat)
    requires k < |slots|
    requires SlotWellFormed(slots[k], courses)
    requires k + 1 < |slots| ==> ClockTime.WellFormed(slots[k + 1].start) && EndMs(slots[k]) < StartMs(slots[k + 1])
    requires Chained(slots[k + 1..], courses)
    ensures Chained(slots[k..], courses)
  {
    assert slots[k..][1..] == slots[k + 1..];
  }

  lemma SeedMondayDisjoint(c: seq<Course>)
    requires HasSeedCodes(c)
    ensures Disjoint(SeedMonday, c)
  {
    var d := SeedMonday;
    SlotAt(d[0], c, 5, 8, 0, 10, 55);
    SlotAt(d[1], c, 4, 11, 5, 12, 0);
    SlotAt(d[2], c, 2, 14, 15, 15, 10);
    SlotAt(d[3], c, 3, 15, 15, 16, 10);
    SlotAt(d[4], c, 1, 17, 20, 18, 15);
    ChainStep(d, c, 4);
    ChainStep(d, c, 3);
    ChainStep(d, c, 2);
    ChainStep(d, c, 1);
    ChainStep(d, c, 0);
    assert d[0..] == d;
    ChainedIsDisjoint(d, c);
  }

  lemma SeedTuesdayDisjoint(c: seq<Course>)
    requires HasSeedCodes(c)
    ensures Disjoint(SeedTuesday, c)
  {
    var d := SeedTuesday;
    SlotAt(d[0], c, 4, 11, 5, 12, 0);
    SlotAt(d[1], c, 2, 13, 15, 14, 10);
    SlotAt(d[2], c, 3, 14, 15, 15, 10);
    ChainStep(d, c, 2);
    ChainStep(d, c, 1);
    ChainStep(d, c, 0);
    assert d[0..] == d;
    ChainedIsDisjoint(d, c);
  }

  lemma SeedWednesdayDisjoint(c: seq<Course>)
    requires HasSeedCodes(c)
    ensures Disjoint(SeedWednesday, c)
  {
    var d := SeedWednesday;
    SlotAt(d[0], c, 6, 9, 0, 11, 55);
    SlotAt(d[1], c, 0, 13, 15, 14, 10);
    SlotAt(d[2], c, 1, 17, 20, 18, 15);
    ChainStep(d, c, 2);
    ChainStep(d, c, 1);
    ChainStep(d, c, 0);
    assert d[0..] == d;
    ChainedIsDisjoint(d, c);
  }

  lemma SeedThursdayDisjoint(c: seq<Course>)
    requires HasSeedCodes(c)
    ensures Disjoint(SeedThursday, c)
  {
    var d := SeedThursday;
    SlotAt(d[0], c, 0, 11, 5, 12, 0);
    SlotAt(d[1], c, 3, 13, 15, 14, 10);
    ChainStep(d, c, 1);
    ChainStep(d, c, 0);
    assert d[0..] == d;
    ChainedIsDisjoint(d, c);
  }

  lemma SeedFridayDisjoint(c: seq<Course>)
    requires HasSeedCodes(c)
    ensures Disjoint(SeedFriday, c)
  {
    var d := SeedFriday;
    SlotAt(d[0], c, 4, 11, 5, 12, 0);
    SlotAt(d[1], c, 2, 15, 15, 16, 10);
    SlotAt(d[2], c, 0, 16, 20, 17, 15);
    SlotAt(d[3], c, 1, 17, 20, 18, 15);
    ChainStep(d, c, 3);
    ChainStep(d, c, 2);
    ChainStep(d, c, 1);
    ChainStep(d, c, 0);
    assert d[0..] == d;
    ChainedIsDisjoint(d, c);
  }

  /** The seeded timetable: every slot names a registered course and starts
      before it ends, and within each weekday the slots are in start order
      with each one ending before the next begins. */
  lemma SeedTimetableWellFormed()
    ensures Disjoint(SeedMonday, SeedCourses) && Disjoint(SeedTuesday, SeedCourses)
    ensures Disjoint(SeedWednesday, SeedCourses) && Disjoint(SeedThursday, SeedCourses)
    ensures Disjoint(SeedFriday, SeedCourses)
  {
    var c := SeedCourses;
    assert HasSeedCodes(c);
    SeedMondayDisjoint(c);
    SeedTuesdayDisjoint(c);
    SeedWednesdayDisjoint(c);
    SeedThursdayDisjoint(c);
    SeedFridayDisjoint(c);
  }

  /** The seeded course codes are pairwise distinct, so a slot's code names one course. */
  lemma SeedCourseCodesDistinct()
    ensures forall i, j :: 0 <= i < j < |Seed.registeredCourses| ==>
      Seed.registeredCourses[i].code != Seed.registeredCourses[j].code
  {
  }
}
