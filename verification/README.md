# Class-schedule tracker: a Dafny model of its core

This project models the sequential core of a personal class-schedule tracker
whose backend runs on a hosted reactive document database and whose front end
shows today's classes and a preview of the next working day. Five pieces are
modelled:

- **The schedule document and its seed** (`convex/schedule.ts`): the single
  schedule document holding the academic term, the registered courses and the
  Monday-to-Friday timetable; `getScheduleData` reads it and
  `initializeSchedule` creates it once from a constant.
- **The notification ledger** (`convex/schedule.ts`): reminder records keyed
  on `(classCode, scheduledFor)`; `scheduleNotification` inserts one if absent,
  `getPendingNotifications` lists the due and unsent ones in the order of the
  `by_scheduled_time` index, and `markNotificationSent` sets the `sent` flag.
- **The class card's status badge** (`src/components/ClassCard.tsx`): "HH:MM"
  start and end times against the current instant give Ongoing, Upcoming with
  a rounded-up minute countdown, or Completed, plus the course-type colour.
- **The next-working-day heading** (`src/components/TomorrowsPreview.tsx`):
  today's weekday gives the next Monday-to-Friday weekday and how many
  calendar days ahead it is.
- **The device-token registry** (`convex/fcm_tokens.ts`): `saveToken`
  inserts a push token if absent, and `getTokens` lists them.

Modelling choices:

- A database table is `Db.Table<D>`: its rows in creation order, each with the
  id the database gave it, plus the counter the next id comes from. The
  database's default scan order is creation order, so `.first()` and
  `collect()[0]` are the earliest matching row. Every mutation is one pure step
  from the old table. An insert gives the new table and the returned id
  (`Db.Stored`). A patch gives the new table or, for an unknown id, an error
  (`Db.Patched`).
- `Date.now()` and `new Date()` become a parameter `now`. Times of day are
  integer milliseconds since local midnight, and weekdays are integers 0..6
  with 0 for Sunday.
- `db.patch` on an id that names no document raises an error. This is
  modelled as `Db.NotFound`, with the table unchanged.
- The `by_scheduled_time` index orders rows by `scheduledFor`, and equal
  instants by creation time. Ids grow with creation, so the model sorts by
  `(scheduledFor, id)`.
- The card has three states, Ongoing, Upcoming and Completed, with no
  "starting soon" state.
- The countdown is `Math.ceil` of the minutes left (`ClassCard.tsx` line 53).
- `Schedules.Seed` keeps the seeded literal as written. `Schedules.Lesson`
  and `Schedules.Lab` only fill in the optional `typeNote`.

## Model

| member | source | states |
|---|---|---|
| Db.Insert | convex/schedule.ts:212-219 | an insert appends exactly one row holding the document under an id no existing row has, keeps every earlier row in place, and keeps ids increasing |
| Db.FirstWhere | convex/schedule.ts:200-208 | `.filter(...).first()` yields the earliest row satisfying the filter, and nothing exactly when no row does |
| Db.Filter | convex/schedule.ts:227-236 | a filtered scan keeps exactly the rows satisfying the filter, each as many times as it is stored |
| Db.InsertIfAbsent | convex/schedule.ts:199-219 | with a row of the same key present it returns the earliest such row's id and leaves the table unchanged; otherwise it appends the document |
| Db.InsertIfAbsentIdempotent | convex/fcm_tokens.ts:13-27 | a repeated insert-if-absent of the same document returns the same id and leaves the same table |
| Db.InsertIfAbsentKeepsUnique | convex/schedule.ts:199-219 | insert-if-absent never creates a second row with a key that is already present |
| Db.Patch | convex/schedule.ts:243 | a patch rewrites only the document with that id and keeps every id; an unknown id is an error |
| Schedules.GetScheduleData | convex/schedule.ts:4-10 | returns the earliest schedule document (least id), or null exactly when the table is empty |
| Schedules.InitializeSchedule | convex/schedule.ts:12-188 | on a non-empty table it returns the first schedule's id and inserts nothing; on an empty table the table becomes exactly one row holding the seeded schedule |
| Schedules.InitializeScheduleIdempotent | convex/schedule.ts:15-18 | a second initialization changes nothing and returns the same id, so there is never a second schedule |
| Schedules.InitializeThenGet | convex/schedule.ts:7-18 | after initialization, `getScheduleData` returns the document whose id initialization returned, which is the seed when the table was empty |
| Schedules.ChainedIsDisjoint | convex/schedule.ts:71-184 | a weekday list in which each slot ends before the next one starts is sorted by start and has no two overlapping slots |
| Schedules.SeedMondayDisjoint | convex/schedule.ts:71-103 | every seeded Monday slot is well-formed "HH:MM", starts before it ends, names a registered course, and ends before every later Monday slot starts |
| Schedules.SeedTuesdayDisjoint | convex/schedule.ts:104-123 | the same for the Tuesday slots |
| Schedules.SeedWednesdayDisjoint | convex/schedule.ts:124-144 | the same for the Wednesday slots |
| Schedules.SeedThursdayDisjoint | convex/schedule.ts:145-158 | the same for the Thursday slots |
| Schedules.SeedFridayDisjoint | convex/schedule.ts:159-184 | the same for the Friday slots |
| Schedules.SeedTimetableWellFormed | convex/schedule.ts:20-185 | every seeded slot names a registered course and has start < end, and each weekday list is sorted by start with no overlap |
| Schedules.SeedCourseCodesDistinct | convex/schedule.ts:20-69 | the seeded course codes are pairwise distinct, so a slot's code names exactly one course |
| Notifications.ScheduleNotification | convex/schedule.ts:190-221 | with a reminder of the same class code and instant present, it returns the earliest such reminder's id and leaves the table unchanged; otherwise it appends exactly one unsent reminder with the given fields under a fresh id and leaves every existing row unchanged |
| Notifications.ScheduleNotificationIdempotent | convex/schedule.ts:199-219 | scheduling the same reminder twice gives the same table and id as scheduling it once |
| Notifications.ScheduleNotificationKeepsKeysUnique | convex/schedule.ts:199-219 | at most one reminder per (class code, instant) before the call means at most one after it |
| Notifications.SortByTime | convex/schema.ts:61 | rearranges rows into `by_scheduled_time` order (instant, then creation) without adding or dropping any |
| Notifications.GetPendingNotifications | convex/schedule.ts:223-238 | returns exactly the stored reminders with `scheduledFor <= now` and `sent = false`, each as often as it is stored, in ascending `scheduledFor` order with ties in creation order |
| Notifications.MarkNotificationSent | convex/schedule.ts:240-245 | sets `sent = true` on the reminder with that id, keeping its other fields and every other row unchanged; an unknown id is an error |
| Notifications.MarkNotificationSentIdempotent | convex/schedule.ts:243 | marking the same reminder again succeeds and changes nothing |
| Notifications.MarkNotificationSentKeepsKeysUnique | convex/schedule.ts:243 | marking never changes a reminder's (class code, instant) key, so keys stay unique |
| Notifications.MarkedIsNotPending | convex/schedule.ts:226-243 | once marked sent, a reminder is excluded from the pending list at every instant |
| Notifications.ScheduledThenPendingUntilSent | convex/schedule.ts:212-243 | a newly scheduled reminder is pending at every instant from its due time, and after it is marked sent it is pending no more |
| FcmTokens.GetTokens | convex/fcm_tokens.ts:5-7 | lists exactly the stored token documents |
| FcmTokens.SaveToken | convex/fcm_tokens.ts:10-29 | a stored token returns the id of its earliest document (the first holding that token) and leaves the table unchanged; a new token is appended as exactly one document under a fresh id |
| FcmTokens.SaveTokenIdempotent | convex/fcm_tokens.ts:13-27 | saving the same token twice gives the same table and id as saving it once |
| FcmTokens.SaveTokenKeepsTokensDistinct | convex/fcm_tokens.ts:14-27 | if the stored tokens are pairwise distinct before a save, they are after it |
| FcmTokens.SaveTokenRetains | convex/fcm_tokens.ts:5-7 | after a save, `getTokens` contains the token, and every document stored before is still there, unchanged and in place |
| ClockTime.MillisOfDay | src/components/ClassCard.tsx:30-37 | a parsed "HH:MM" is a whole number of minutes after midnight: seconds and milliseconds are zero |
| ClockTime.MillisOfFormat | src/components/ClassCard.tsx:30-37 | "HH:MM" reads back as its hour and minute, at hour * 60 + minute minutes after midnight |
| ClockTime.FormatOfParse | src/components/ClassCard.tsx:30-31 | every well-formed "HH:MM" is the zero-padded text of its own hour and minute |
| ClassCard.CeilMinutes | src/components/ClassCard.tsx:53 | the countdown is the least number of whole minutes covering the time left, and at least 1 |
| ClassCard.StatusAt | src/components/ClassCard.tsx:39-55 | Ongoing exactly when start <= now <= end, with both boundaries included; Upcoming exactly when now < start, even for a malformed slot whose end is earlier; Completed otherwise, and then now > end; Upcoming carries the ceiling of the minutes left |
| ClassCard.ClassStatus | src/components/ClassCard.tsx:29-55 | the status of "HH:MM" times: Ongoing and Upcoming in terms of the parsed hour and minute |
| ClassCard.StatusText | src/components/ClassCard.tsx:44-53 | "Ongoing", "Completed", or "Starts in N mins" where N is the countdown in decimal with no leading zero, and reads back as the countdown |
| ClassCard.StatusColor | src/components/ClassCard.tsx:43-54 | the badge is green exactly while Ongoing, blue exactly while Upcoming, and grey (the default) exactly once Completed |
| ClassCard.StatusIcon | src/components/ClassCard.tsx:43-54 | the badge icon is the red circle exactly while Ongoing, the alarm clock exactly while Upcoming, and the check mark (the default) exactly once Completed |
| ClassCard.StatusTextInjective | src/components/ClassCard.tsx:44-53 | the badge text alone determines the status and its countdown |
| ClassCard.BadgeFollowsKind | src/components/ClassCard.tsx:43-55 | badge colour and icon are shared exactly by statuses of the same kind |
| ClassCard.TypeColor | src/components/ClassCard.tsx:58-60 | the purple classes exactly when the type is "Practical", the blue ones otherwise |
| ClassCard.CountdownNonIncreasing | src/components/ClassCard.tsx:40-53 | as `now` advances an Upcoming class was Upcoming before, and its countdown never increases |
| ClassCard.StatusMonotone | src/components/ClassCard.tsx:39-55 | for a slot with start <= end the status only moves forward: Upcoming, Ongoing, Completed |
| ClassCard.MalformedSlotShowsUpcoming | src/components/ClassCard.tsx:47-55 | when end < now < start the card shows Upcoming, not Completed |
| ClassCard.CountdownRoundsUp | src/components/ClassCard.tsx:53 | a 09:00 class seen at 08:46:30 shows 14 minutes, rounded up |
| Decimal.ValueOfText | src/components/ClassCard.tsx:53 | the decimal text of a number in the countdown reads back as that number |
| Decimal.TextInjective | src/components/ClassCard.tsx:53 | different countdowns print differently |
| TomorrowsPreview.NextWorkingDay | src/components/TomorrowsPreview.tsx:12-18 | the shown weekday is in 1..5; the offset is in 1..3; today + offset falls on that weekday; and every day strictly between is a weekend day, so it is the first working day after today |
| TomorrowsPreview.NextDayName | src/components/TomorrowsPreview.tsx:20-21 | `dayNames[nextDay]` is in range, is one of Monday..Friday, and names the weekday of the shown date |
| TomorrowsPreview.MidweekStepsOneDay | src/components/TomorrowsPreview.tsx:12-17 | Monday to Thursday give the following day, one day ahead |
| TomorrowsPreview.WeekendRollsToMonday | src/components/TomorrowsPreview.tsx:13-15 | Friday and Saturday give Monday, 3 and 2 days ahead |
| TomorrowsPreview.SundayStepsToMonday | src/components/TomorrowsPreview.tsx:12-17 | Sunday fails the weekend test and gives Monday through the ordinary branch, one day ahead |
| TomorrowsPreview.RollForwardExactlyFridaySaturday | src/components/TomorrowsPreview.tsx:13 | the `nextDay === 0` disjunct never holds, and the roll-forward branch is taken exactly on Friday and Saturday |

## Left out

- Push delivery in `convex/notifications.ts` is not part of this model. It covers the Firebase Admin SDK, parsing the service-account key from the environment, the memoised app and the network send. All of these are foreign calls and I/O.
- Rendering is not modelled. This covers the JSX of the three components, the `src/App.tsx` layout, the sign-in gating and the `toLocaleDateString` formatting.
- The `console.log` call in `saveToken` is not modelled, because it is logging only.
- `getTodaysSchedule`, `getTomorrowsSchedule` and `initializeExampleData` are called from the UI but are defined in no file this model covers. Their behaviour is not guessed.
- No code computes a reminder time 15 minutes before a class, and none has a "starting soon" state. Neither is modelled.
- Each mutation is one sequential step. The database's transactions are not modelled, and neither are concurrent check-then-insert races.
- Real calendar arithmetic is left out: time zones, daylight-saving shifts and month rollover in `setDate`. A time of day is milliseconds since local midnight, and a weekday is an integer 0..6.
- Malformed "HH:MM" input is excluded by a precondition (`ClockTime.WellFormed`), so the `NaN` that `Number` would give is never reached. Only the two-digit, colon, two-digit form is modelled.
- `scheduledFor` is a JavaScript number (a double) in the source. The model uses an unbounded integer of milliseconds, which is exact for every real timestamp.
- Database ids are opaque strings in the source. The model uses naturals drawn from a counter.
- ClassCard.ClassStatus: its contract states only the Ongoing and Upcoming conditions in terms of the parsed hour and minute. The Completed case and the countdown bounds follow from `ClassCard.StatusAt`, which it applies to the parsed times.
