# Meeting-room booking dashboard: the verified core

This project models the logic under the React meeting-room booking dashboard: the bookings list, the
administration table, the view of today's bookings, the booking form, the dashboard figures and the
application shell's admin gate. The rendering, the spreadsheet back end and the engine's date and locale
services are left out.

What is modelled:

- The split date + time parser `parseDateTime`. The bookings list, the admin table and the today view each
  carry a copy of it; the model is module `DateTime` on top of `Calendar`.
  - The date is split on `-` or `/` into exactly three pieces. A four-character first piece means year,
    month, day; anything else means day, month, year. The month becomes 0-based.
  - The time string is cleaned of U+200F and U+202B and trimmed. Its leftmost `digits:digits` run is read
    with an optional AM/PM marker (Latin in any case, or Arabic `م`/`ص`), and the 12-hour adjustment is
    applied.
  - `parseInt` is "optional white space and sign, then the leading decimal digits, else NaN".
  - The result is the time value of `new Date(y, m, d, h, min)` on a naive local clock. It follows the
    ECMAScript MakeDay/MakeFullYear/TimeClip rules on exact integers, with the proleptic Gregorian calendar
    written out; where doubles make the engine differ is listed under "Left out".
- The bookings list (module `Bookings`): the upcoming/past split by end time, the two sorts by start
  (unreadable starts last), and the `formatTime` and `formatDateWithDay` fallbacks.
- The admin table (module `Admin`): the sorted copy (latest start first), the free-text search over every
  field, and the status change.
- Today's bookings (module `TodayBookings`): `normalizeDate`, `todayString`, the filter on today's date, the
  sort, the grouping by room built with `push`, and the room keys in text order.
- The booking form (module `BookingForm`), as a class over the form's state (`formData`, `bookingDate`,
  `startTime`, `endTime`):
  - its handlers, the initial data, the hospitality suggestion, and the employee and department lists;
  - the id rule of `handleSubmit`;
  - the string steps of `parseCustomDateTime`: marker and `/` normalising, then the time-then-date layout
    search and rearrangement.
- The dashboard (module `Dashboard`): `getIndicatorValue`, and the department counts cut to the five
  busiest.
- The application shell (module `App`): `handleSetView`, `handleAdminLogin`, the password box and the
  prompt, as a class with the invariant "the admin view is shown only to an authenticated user". A step
  function over the same state proves that every sequence of user actions keeps this invariant.

Shared modules: `Strings` holds the JavaScript string built-ins the code relies on. `Seqs` holds `filter`,
`find` and `[...new Set(xs)]`. `Sorting` holds an in-place insertion sort on an array, standing in for
`Array.prototype.sort`, proved to sort by a total preorder and to permute its input. `Records` holds the
record shapes and `Options` holds the optional value.

All three copies of the parser behave the same way. The admin copy reads all three pieces with `map` and then
decrements the month, and it has no explicit `isNaN` test; `NaN` makes `new Date(...)` invalid there
too. So one function, `DateTime.ParseDateTime`, models all three copies.

The record type in `types.ts` does not declare the fields `التاريخ`, `من الساعة` and `إلى الساعة` that
the lists read. The model's booking carries them as optional strings.

The today view as written keeps a booking when its normalised date equals today's date. It does not test
the status and it computes no live progress value. The model follows the code.

## Model

| member | source | states |
|---|---|---|
| DateTime.ReadDateParts | components/Bookings.tsx:99-113 | a date reads as pieces exactly when `split(/[-/]/)` gives three pieces |
| DateTime.ReadDatePartsOfJoin | components/Bookings.tsx:99-113 | a date joined from three separator-free pieces reads a four-character first piece as the year and otherwise reads the first piece as the day; the month is always `parseInt` of the middle piece minus one |
| DateTime.ReadYearFirst | components/Bookings.tsx:105-108 | `YYYY-M-D` with digit pieces reads as year, month − 1 and day, whichever separators are used |
| DateTime.ReadDayFirst | components/Bookings.tsx:109-113 | `D/M/YYYY` with a day piece that is not four characters reads as the same year, month − 1 and day |
| DateTime.DateLayoutsAgree | components/Bookings.tsx:105-113 | year-first and day-first writings of the same numbers read the same date |
| DateTime.DigitFields | components/Bookings.tsx:106-112 | three digit pieces are read as their values, the month made 0-based |
| DateTime.DecrementOfDigits | components/Bookings.tsx:107 | `parseInt(month) - 1` of a digit piece is its value minus one |
| DateTime.Decrement | components/Admin.tsx:62-63 | definition of `month--` on a value that may be NaN; what it does to a month read from digits is DateTime.DecrementOfDigits |
| DateTime.MatchAt | components/Bookings.tsx:117 | a match of `(\d+):(\d+)\s*(AM\|PM\|م\|ص)?` starting at an index has two non-empty digit groups |
| DateTime.MatchFrom | components/Bookings.tsx:117 | the unanchored search returns only well-formed matches |
| DateTime.MatchFromLeftmost | components/Bookings.tsx:117 | the search returns the leftmost match, with none before it, and returns nothing only when no index holds a match |
| DateTime.NoMatchFrom | components/Bookings.tsx:117 | a failed search means no match at or after the start index |
| DateTime.MatchFromFound | components/Bookings.tsx:117 | what the search finds is the match at some index with no match before it |
| DateTime.MatchAtNumeral | components/Bookings.tsx:117 | at `hours:minutes` followed by a non-digit, the match takes exactly those digit runs and the marker after optional white space |
| DateTime.MatchTime | components/Bookings.tsx:117 | definition of `match` on the cleaned time; see DateTime.MatchFromLeftmost and DateTime.MatchTimeAtStart |
| DateTime.CleanTime | components/Bookings.tsx:116 | definition of the mark removal and `trim`; see DateTime.CleanTimeUnchanged and DateTime.SheetsTimeClean |
| DateTime.AdjustHour | components/Bookings.tsx:139-146 | definition of the marker adjustment; see DateTime.AdjustHourIsTwelveHourClock |
| DateTime.ReadClock | components/Bookings.tsx:115-147 | definition of the time half; see DateTime.ReadClockOfMatch and DateTime.MatchedClockIsNumeric |
| DateTime.ParseDateTime | components/Bookings.tsx:91-166 | `null` unless both strings are present and non-empty and the date has three pieces; every result is a valid time value (at most 8.64e15 in magnitude) |
| DateTime.NonNumericDateRejected | components/Bookings.tsx:149-152 | any date piece that `parseInt` reads as NaN makes the result `null` |
| DateTime.UnreadablePiece | components/Bookings.tsx:105-113 | a NaN piece leaves a NaN year, month or day |
| DateTime.IncompleteDateRejected | components/Bookings.tsx:149-152 | a NaN year, month or day makes the result `null` whatever the time |
| DateTime.MatchedClockIsNumeric | components/Bookings.tsx:134-136 | when a `digits:digits` run is found, both hour and minute are numbers: NaN comes only from the date or from the ISO fallback |
| DateTime.AdjustHourIsTwelveHourClock | components/Bookings.tsx:139-146 | for hours 1..12 the PM/AM adjustment is the 12-hour reading: 1..11 PM add 12, 12 AM is 0, and the result is PM exactly when it is at least 12 |
| DateTime.ReadClockOfMatch | components/Bookings.tsx:134-146 | a clean time string reads as the match's hour, adjusted by its marker, and its minute |
| DateTime.MatchDigitsClock | components/Bookings.tsx:117 | `H:M` alone is its own first match, without a marker |
| DateTime.ReadDigitsClock | components/Bookings.tsx:116-136 | `H:M` reads as those two numbers |
| DateTime.ReadClockText | components/Bookings.tsx:116-136 | `HH:MM` reads as that hour and minute |
| DateTime.CleanTimeUnchanged | components/Bookings.tsx:116 | cleaning leaves a string alone when it has no direction mark and no surrounding white space |
| DateTime.MatchMarkedClock | components/Bookings.tsx:117 | `H:M`, a space and a marker (Latin or Arabic) match with that marker |
| DateTime.ReadMarkedClock | components/Bookings.tsx:116-146 | `H:M AM/PM` (or `م`/`ص`) reads as the adjusted hour and the minute |
| DateTime.ReadTwelveHourClock | components/Bookings.tsx:139-146 | `h:MM PM` and its AM and Arabic forms read as the 24-hour time they stand for |
| DateTime.MarkerAfterSpace | components/Bookings.tsx:117 | `\s*` skips the space before a marker and the marker is read |
| DateTime.MatchTimeAtStart | components/Bookings.tsx:117 | a match at index 0 is the first match |
| DateTime.MarkedClockGroups | components/Bookings.tsx:117 | the match at the start of `H:M marker` and the marker it reads |
| DateTime.NoMatchInDate | components/Bookings.tsx:117 | no match starts inside the date part of an ISO text, because its digit runs never end at a colon |
| DateTime.SearchSkipsDate | components/Bookings.tsx:117 | the search passes over the whole date part and its `T` |
| DateTime.MatchAfterDate | components/Bookings.tsx:117 | the first match of a dated text is the `hours:minutes` right after its `T` |
| DateTime.FirstMatchAfterDate | components/Bookings.tsx:117 | a match right after the `T` is the text's first match |
| DateTime.MatchSheetsTime | components/Bookings.tsx:117-121 | a spreadsheet time `date T HH:MM:SS Z` matches its own hour and minute, without a marker |
| DateTime.ReadSheetsTimeDigits | components/Bookings.tsx:116-136 | a spreadsheet time reads as its hour and minute digits |
| DateTime.SheetsTimeClean | components/Bookings.tsx:116 | cleaning leaves a spreadsheet time alone |
| DateTime.ReadSheetsTime | components/Bookings.tsx:117-129 | a spreadsheet time such as `1899-12-30T14:30:00Z` reads as its own hour and minute through the regex, so the `T`/`Z` fallback is never consulted for it |
| DateTime.ReadIsoDate | components/Bookings.tsx:105-108 | `YYYY-MM-DD` reads as that year, month − 1 and day |
| DateTime.ParseIsoDateAndClock | components/Bookings.tsx:91-166 | round trip: `YYYY-MM-DD` with `HH:MM` parses to the local time value of exactly those fields (`null` exactly when that value is out of range) |
| Calendar.DaysInMonth | components/Bookings.tsx:154 | every month has 28 to 31 days |
| Calendar.Epoch | components/Bookings.tsx:154 | 1970-01-01 is day 0 |
| Calendar.MarchYearLength | components/Bookings.tsx:154 | a March-based year has 366 days exactly when the year it ends in is a leap year |
| Calendar.FirstOfMonth | components/Bookings.tsx:154 | the day number of the first of each month, written out |
| Calendar.NextMonth | components/Bookings.tsx:154 | the first of the next month is one month length after the first of this one, across year ends and leap days |
| Calendar.MonthLength | components/Bookings.tsx:154 | consecutive month starts, by month index, are one month length apart |
| Calendar.MonthStartsIncrease | components/Bookings.tsx:154 | a whole month lies before the start of every later month |
| Calendar.MakeDayMonthIndex | components/Bookings.tsx:154 | `new Date` rolls a month outside 0..11 into another year: only `12 * year + month` matters |
| Calendar.DaysInMonthOrder | components/Bookings.tsx:154 | day numbers follow the order of (month, day) pairs |
| Calendar.MonthIndex | components/Bookings.tsx:154 | a 0-based month below 12 leaves the year unchanged |
| Calendar.MakeDayChronological | components/Bookings.tsx:154 | on real dates, a smaller day number means an earlier date, in both directions |
| Calendar.LocalTimeValue | components/Bookings.tsx:154-159 | a time value, when valid, is within ±8.64e15 ms |
| Calendar.LocalTimeChronological | components/Bookings.tsx:174 | for real dates and times of day, comparing time values is comparing wall-clock readings, in both directions |
| Calendar.LocalTimeValueInRange | components/Bookings.tsx:156-159 | every year from 1000 to 9999 with a month index 0..11, a day 1..31 and a time of day gives a valid time value |
| Calendar.DaysFromCivil | components/Bookings.tsx:154 | definition: day number of a proleptic Gregorian date; see Calendar.Epoch, Calendar.FirstOfMonth and Calendar.NextMonth |
| Calendar.MakeDay | components/Bookings.tsx:154 | definition of ECMAScript MakeDay; see Calendar.MakeDayMonthIndex and Calendar.MakeDayChronological |
| Calendar.MakeFullYear | components/Bookings.tsx:154 | definition: years 0..99 mean 1900..1999; see Calendar.LocalTimeChronological |
| Bookings.ByStartIsTotalPreorder | components/Bookings.tsx:181-195 | the order by start (unreadable starts last) is total and transitive, ascending and descending |
| Bookings.StartOf | components/Bookings.tsx:182-183 | definition: the booking's date at its start time; see Bookings.Classify |
| Bookings.EndOf | components/Bookings.tsx:169 | definition: the booking's date at its end time; see Bookings.ExactlyOneBucket |
| Bookings.KeyLe | components/Bookings.tsx:181-195 | definition of the order the comparators stand for; see Bookings.ByStartIsTotalPreorder and Bookings.CompareKeysAgree |
| Bookings.CompareKeys | components/Bookings.tsx:184-186 | definition of the comparator on two starts; see Bookings.CompareKeysAgree and Bookings.CompareInconsistentOnUnknown |
| Bookings.Compare | components/Bookings.tsx:181-195 | definition of the comparator on two bookings; see Bookings.CompareAgreesWithOrder |
| Bookings.UpcomingAt | components/Bookings.tsx:168-179 | definition of the upcoming test; see Bookings.ExactlyOneBucket |
| Bookings.PastAt | components/Bookings.tsx:168-179 | definition of the past test; see Bookings.ExactlyOneBucket |
| Bookings.CompareKeysAgree | components/Bookings.tsx:184-186 | on two starts of which one is readable, the comparator is negative exactly when the order strictly puts the first first, and zero exactly when they tie |
| Bookings.CompareAgreesWithOrder | components/Bookings.tsx:181-195 | the same for the bookings' comparator in both directions |
| Bookings.CompareInconsistentOnUnknown | components/Bookings.tsx:184-185 | with two unreadable starts each booking sorts after the other: the comparator is inconsistent there, so no order among them is promised |
| Bookings.UnknownStartsLast | components/Bookings.tsx:181-195 | in a list sorted by start, an unreadable start is followed only by unreadable starts |
| Bookings.Classify | components/Bookings.tsx:168-195 | upcoming holds exactly the bookings whose readable end is not before now, past exactly those whose end is before now, each occurrence kept; upcoming is ascending and past descending by start, unreadable starts last; bookings with equal starts keep their list order (stable sort) |
| Bookings.ExactlyOneBucket | components/Bookings.tsx:168-179 | every occurrence of a booking with a readable end lands in exactly one list (upcoming iff end ≥ now, past iff end < now), and one with an unreadable end lands in neither |
| Bookings.FormatTime | components/Bookings.tsx:48-72 | `''` for an empty time; the input unchanged unless it starts with `1899-12-30T`, or when the engine cannot read it |
| Bookings.FormatDateWithDay | components/Bookings.tsx:16-46 | `''` for an empty date; the input unchanged when it does not split into three pieces |
| Bookings.FormatIsoDate | components/Bookings.tsx:16-41 | a `YYYY-MM-DD` date of a real month is shown as the formatted midnight starting it |
| Admin.SortedBookings | components/Admin.tsx:97-104 | a sorted copy: a permutation of all bookings, latest start first, unreadable starts last; equal starts keep their list order |
| Admin.FilteredBookings | components/Admin.tsx:106-115 | an empty term returns the sorted list unchanged; otherwise every kept booking is from the list and matches |
| Admin.MatchesTerm | components/Admin.tsx:111-113 | definition of the search test; see Admin.FilteredBookingsExact and Admin.SearchIgnoresCase |
| Records.FieldTexts | components/Admin.tsx:111 | definition of `Object.values(booking)` as texts; see Admin.FilteredBookingsExact |
| Admin.FilteredBookingsExact | components/Admin.tsx:110-114 | a non-empty term keeps every occurrence of a booking some field of which, lower-cased, contains the lower-cased term, and drops every other booking |
| Admin.FilteredBookingsSorted | components/Admin.tsx:106-115 | the filter keeps the table's order |
| Admin.SearchIgnoresCase | components/Admin.tsx:112 | searching for a term and for its lower-cased form gives the same result |
| Admin.FindById | components/Admin.tsx:132 | the first booking with the id, or none exactly when no booking has it |
| Admin.StatusUpdate | components/Admin.tsx:131-144 | nothing is sent exactly when no booking has the id; otherwise the found booking is sent with the new status |
| Admin.StatusUpdateOnlyStatus | components/Admin.tsx:136 | the record sent differs from the found booking only in its status; a second change overrides the first |
| TodayBookings.NormalizeDate | components/TodayBookings.tsx:95-112 | `''` for an empty date; the input unchanged when its part before any `T` does not split into three pieces |
| TodayBookings.NormalizedPieces | components/TodayBookings.tsx:99-107 | the normalised text has no `T` and splits into the year piece and the padded month and day; a four-character first piece keeps its place, otherwise the pieces are reversed |
| TodayBookings.NormalizeDateIdempotent | components/TodayBookings.tsx:104-107 | normalising twice is normalising once whenever the date part's first or last piece has four characters |
| TodayBookings.RearrangedPieces | components/TodayBookings.tsx:104-107 | the rearranged date splits back into its year piece and padded month and day |
| TodayBookings.RearrangedStable | components/TodayBookings.tsx:104-107 | rearranging an already rearranged date with a four-character year gives it back |
| TodayBookings.JoinPieces | components/TodayBookings.tsx:105-107 | the `-`-joined pieces with padded month and day split back into those pieces |
| TodayBookings.PadKeepsOut | components/TodayBookings.tsx:105 | `padStart(2, '0')` adds only zeros |
| TodayBookings.DatePartPieces | components/TodayBookings.tsx:99-101 | the pieces of the date part hold no separator and no `T` |
| TodayBookings.DatePartOf | components/TodayBookings.tsx:99-101 | `split('T')[0]` of a dated text is its date, which splits into its three pieces |
| TodayBookings.NormalizeYearFirst | components/TodayBookings.tsx:95-108 | a four-digit-year date, padded or not, with `-` or `/`, optionally followed by `T` and a time, normalises to `YYYY-MM-DD` |
| TodayBookings.NormalizeDayFirst | components/TodayBookings.tsx:95-108 | `D/M/YYYY`, padded or not, normalises to the same `YYYY-MM-DD` |
| TodayBookings.Numeral | components/TodayBookings.tsx:105-107 | a number written padded or not pads to its two-digit form |
| TodayBookings.TodayStringIsNormal | components/TodayBookings.tsx:117-120 | today's `YYYY-MM-DD` is already normal, so the filter compares like with like |
| TodayBookings.TodayString | components/TodayBookings.tsx:117 | definition of `todayString`; see TodayBookings.TodayStringIsNormal |
| TodayBookings.OnDay | components/TodayBookings.tsx:120 | definition of the filter on today's date; see TodayBookings.GroupedBookings |
| TodayBookings.Rearranged | components/TodayBookings.tsx:104-107 | definition of the `YYYY-MM-DD` template; see TodayBookings.RearrangedPieces and TodayBookings.RearrangedStable |
| TodayBookings.GroupsOf | components/TodayBookings.tsx:129-138 | definition of the groups the `forEach` should build, room by room; see TodayBookings.PushedIsGroupsOf and TodayBookings.GroupsOfContents |
| TodayBookings.GroupsOfPush | components/TodayBookings.tsx:130-136 | pushing a booking onto its room's group, created empty when missing, gives the groups of the longer list |
| TodayBookings.PushedIsGroupsOf | components/TodayBookings.tsx:129-136 | the pushes in list order build exactly, for each room of the list, that room's bookings in list order |
| TodayBookings.GroupsOfContents | components/TodayBookings.tsx:129-136 | every group is non-empty, holds its room's bookings each as often as the list does, and keeps the list's order; every booking's room has a group |
| TodayBookings.PushBooking | components/TodayBookings.tsx:131-135 | one step of the `forEach`: the booking is pushed onto its room's group, a new room getting an empty group first |
| TodayBookings.GroupByRoom | components/TodayBookings.tsx:129-138 | the loop builds exactly the groups of the list, and records each room once |
| TodayBookings.GroupedBookings | components/TodayBookings.tsx:115-142 | every booking dated today has a non-empty group for its room holding exactly that room's bookings of today, each as often as it occurs, ascending by start, equal starts in list order; the room keys are listed once each, in text order |
| TodayBookings.GroupsOfSelection | components/TodayBookings.tsx:119-136 | grouping a sorted selection gives non-empty groups holding exactly each room's selected bookings, in sorted order |
| BookingForm.NormalizeMarkers | components/BookingForm.tsx:20 | no `م`, `ص` or `/` remains after the three replacements |
| BookingForm.NormalizeMarkersUnchanged | components/BookingForm.tsx:20 | a text without `م`, `ص` and `/` is left alone |
| BookingForm.NormalizeMarkersIdempotent | components/BookingForm.tsx:20 | normalising twice is normalising once |
| BookingForm.LayoutAt | components/BookingForm.tsx:27-28 | a match of the time-then-date pattern has a ten-character date and the marker `AM` or `PM`; its full meaning is BookingForm.LayoutAtOfPieces and BookingForm.LayoutAtHasPieces |
| BookingForm.LayoutPieces | components/BookingForm.tsx:27 | definition: the pattern `(\d{1,2}:\d{2}:\d{2})\s*(AM\|PM)\s*(\d{4}-\d{2}-\d{2})` read at an index, with the hour width and the marker and date positions named |
| BookingForm.SkipSpacesTo | components/BookingForm.tsx:27 | `\s*` stops exactly at the first character that is not white space |
| BookingForm.LayoutAtOfPieces | components/BookingForm.tsx:27-28 | wherever the pattern can be read at an index, the match there is found, with the time, marker and date so read as its groups |
| BookingForm.LayoutAtHasPieces | components/BookingForm.tsx:27-28 | conversely, every match found is such a reading of the pattern, with those groups |
| BookingForm.LayoutFrom | components/BookingForm.tsx:28 | definition of the unanchored `match`; see BookingForm.LayoutFromLeftmost |
| BookingForm.Rearranged | components/BookingForm.tsx:30-33 | definition of `${datePart} ${time} ${ampm}`; see BookingForm.SheetLayoutFound |
| BookingForm.LayoutFromLeftmost | components/BookingForm.tsx:28 | the search returns the leftmost match, and none exactly when no index holds a match |
| BookingForm.NoLayoutFrom | components/BookingForm.tsx:28 | a failed search means no match at or after the start index |
| BookingForm.LayoutFromFound | components/BookingForm.tsx:28 | what the search finds is the match at some index with none before it |
| BookingForm.ParseCustomDateTime | components/BookingForm.tsx:18-45 | `null` for a missing or empty text; the normalised text when the engine reads it; otherwise the rearranged layout when it is found and read; otherwise the original text as the engine reads it, `null` when it cannot |
| BookingForm.SheetLayoutFound | components/BookingForm.tsx:27-33 | in `3:00:00 PM 2025-11-12` the layout is found and rearranged as `2025-11-12 3:00:00 PM` |
| BookingForm.DistinctSorted | components/BookingForm.tsx:68-69 | `[...new Set(texts)].sort()` holds exactly the input's texts, each once, in increasing text order |
| BookingForm.EmployeeNames | components/BookingForm.tsx:68 | exactly the bookings' employee names, no duplicates, sorted |
| BookingForm.Departments | components/BookingForm.tsx:69 | exactly the bookings' departments, no duplicates, sorted |
| BookingForm.SuggestedHospitality | components/BookingForm.tsx:104-110 | the hospitality type of the first rule for the meeting type, or `''` when there is none |
| BookingForm.InitialData | components/BookingForm.tsx:48-61 | a new form is a pending internal meeting for one attendee with an empty id, in the first room or `''` |
| BookingForm.AttendeeCount | components/BookingForm.tsx:118 | `parseInt(value) \|\| 1`: never 0; 1 for NaN and for a value read as 0; the number read otherwise |
| BookingForm.AttendeeCountOfNumeral | components/BookingForm.tsx:118 | a positive count typed as digits is kept |
| BookingForm.WithField | components/BookingForm.tsx:116-119 | definition of `{ ...prev, [name]: value }`; see BookingForm.WithFieldOnlyThatField |
| BookingForm.WithFieldOnlyThatField | components/BookingForm.tsx:116-119 | a change sets the named field and leaves every other field as it was |
| BookingForm.BookingFormState.constructor | components/BookingForm.tsx:63-66 | the first render: initial data, empty date and times |
| BookingForm.BookingFormState.LoadBooking | components/BookingForm.tsx:71-102 | an edited booking is copied in and its readable `من`/`إلى` fill the date and time inputs, unreadable ones empty them; a new booking resets the form |
| BookingForm.BookingFormState.SuggestHospitality | components/BookingForm.tsx:104-111 | the hospitality field becomes the suggestion for the meeting type, nothing else changes |
| BookingForm.BookingFormState.HandleChange | components/BookingForm.tsx:113-120 | the form data becomes the old data with the named field changed |
| BookingForm.BookingFormState.SetBookingDate | components/BookingForm.tsx:171 | the date input takes the value |
| BookingForm.BookingFormState.ChangeStartTime | components/BookingForm.tsx:184-190 | the start takes the value; the end is cleared exactly when it was non-empty and before the new start; afterwards the end is empty or not before the start |
| BookingForm.BookingFormState.SetEndTime | components/BookingForm.tsx:202 | the end input takes the value |
| BookingForm.BookingFormState.HandleSubmit | components/BookingForm.tsx:122-136 | a record is sent exactly when both ISO texts exist; it is the form data with `من`/`إلى` set to them and the id of the edited booking, or `''` for a new one |
| Dashboard.GetIndicatorValue | components/Dashboard.tsx:14-17 | the value of the first entry with the name, or `غير متوفر` when none has it |
| Dashboard.DepartmentsOf | components/Dashboard.tsx:21-22 | definition: the departments the `forEach` visits; what counting them means is Dashboard.BookingsOfIsCount |
| Dashboard.BookingsOf | components/Dashboard.tsx:20-24 | definition: how often a department occurs; see Dashboard.BookingsOfIsCount |
| Dashboard.BookingsOfIsCount | components/Dashboard.tsx:20-24 | a department's count is the number of bookings made by that department |
| Dashboard.SumCountsOther | components/Dashboard.tsx:23 | changing another key's count leaves the sum alone |
| Dashboard.SumCountsIncrement | components/Dashboard.tsx:23 | incrementing a listed key's count adds one to the sum |
| Dashboard.SumCountsAppend | components/Dashboard.tsx:23-25 | listing one more key adds its count to the sum |
| Dashboard.SumCounts | components/Dashboard.tsx:23 | definition: the total of the counts; see Dashboard.CountDepartments |
| Dashboard.TallyKnown | components/Dashboard.tsx:23 | counting a department already seen keeps the tally |
| Dashboard.TallyNew | components/Dashboard.tsx:23 | counting a new department gives it 1 and keeps the tally |
| Dashboard.CountDepartments | components/Dashboard.tsx:20-24 | the keys are exactly the bookings' departments, each count is that department's number of bookings, and the counts sum to the number of bookings |
| Dashboard.ByCountDescending | components/Dashboard.tsx:27 | definition of the order the comparator stands for; see Dashboard.DepartmentBookings |
| Dashboard.Entries | components/Dashboard.tsx:25-26 | definition of `Object.entries(counts).map(...)`; see Dashboard.EntriesOfCounts and Dashboard.EntriesUnique |
| Dashboard.EntriesOfCounts | components/Dashboard.tsx:25-26 | an entry is listed exactly when it names a listed department and carries that department's count |
| Dashboard.EntriesUnique | components/Dashboard.tsx:25-26 | the entries name each department once |
| Dashboard.NamesUnique | components/Dashboard.tsx:25-27 | a rearrangement of the entries names each department once with its true count |
| Dashboard.DepartmentBookings | components/Dashboard.tsx:19-29 | at most five entries by non-increasing count, each department at most once with its true count, and every department left out has no more bookings than the fifth |
| Dashboard.CutProperties | components/Dashboard.tsx:27-28 | the first five of the sorted entries have those properties |
| Dashboard.LeftOutBelowCut | components/Dashboard.tsx:27-28 | a department not among the first five has no more bookings than the fifth |
| App.Step | App.tsx:83-101 | no action revokes authentication or breaks the guard; authentication is gained only by a login with the correct password |
| App.RunKeepsGuard | App.tsx:83-101 | any sequence of actions keeps the guard and never revokes authentication |
| App.Run | App.tsx:83-101 | definition: the state after a sequence of actions; see App.RunKeepsGuard |
| App.AdminViewOnlyAuthenticated | App.tsx:83-101 | from the initial state, the admin view is never shown to an unauthenticated user |
| App.AuthenticatedOnlyByPassword | App.tsx:91-97 | from the initial state, authentication requires an earlier login made while the input held `admin` |
| App.AppComponent.constructor | App.tsx:15-24 | the dashboard view, unauthenticated, no prompt, empty input and error |
| App.AppComponent.HandleSetView | App.tsx:83-89 | the admin view while unauthenticated opens the prompt and keeps the view; any other request switches to it; the guard is kept |
| App.AppComponent.SetPasswordInput | App.tsx:198 | the input takes the typed text |
| App.AppComponent.HandleAdminLogin | App.tsx:91-101 | the correct password authenticates, hides the prompt, opens the admin view and clears input and error; a wrong one only sets the error message |
| App.AppComponent.HandleClosePrompt | App.tsx:191 | the prompt is hidden and nothing else changes |
| Sorting.InsertionSort | components/Bookings.tsx:181-195 | the array is sorted by the order, is a permutation of its old contents, and keeps the old order of every class of tied elements (stable, as ECMAScript 2019 requires of `sort`) |
| Sorting.SortedCopy | components/Admin.tsx:97 | `[...s].sort(...)`: a sorted, stable permutation of `s` |
| Sorting.StableFor | components/Admin.tsx:97 | definition of stability: for every element, the elements tied with it appear in the same order in both sequences |
| Sorting.SwapKeepsTies | components/Bookings.tsx:181-187 | swapping two neighbours in the wrong order keeps every class of tied elements in order |
| Sorting.PairFilter | components/Bookings.tsx:181-187 | two elements that do not both pass a filter can be swapped without changing what it keeps |
| Sorting.StableFilter | components/TodayBookings.tsx:119-136 | a stable sort stays stable after the same filter is applied to both sides |
| Sorting.SwapStep | components/Bookings.tsx:181-187 | moving the travelling element one place left keeps the insertion invariant |
| Sorting.InsertDone | components/Bookings.tsx:181-187 | when the travelling element stops, the prefix is sorted |
| Sorting.FilterSorted | components/Admin.tsx:110-114 | filtering a sorted sequence leaves it sorted |
| Sorting.TextOrderIsTotalPreorder | components/TodayBookings.tsx:142 | the string order `sort()` uses is total and transitive |
| Sorting.SortTexts | components/TodayBookings.tsx:142 | `keys.sort()` on distinct texts gives the same texts in strictly increasing order |
| Seqs.Filter | components/Admin.tsx:110 | `filter` keeps only elements of the input that satisfy the predicate |
| Seqs.FilterCount | components/Admin.tsx:110 | every occurrence of a satisfying element is kept, and no other element |
| Seqs.FilterMember | components/Admin.tsx:110 | an element is kept exactly when it occurs and satisfies the predicate |
| Seqs.FilterConcat | components/Bookings.tsx:168-178 | filtering a concatenation filters each part |
| Seqs.FilterCommute | components/TodayBookings.tsx:119-136 | two filters may be applied in either order |
| Seqs.FilterAppend | components/Bookings.tsx:168-178 | pushing onto a filtered list is filtering the longer list |
| Seqs.Distinct | components/BookingForm.tsx:68 | `[...new Set(s)]` holds exactly the values of `s`, each once |
| Seqs.UniquePermutation | components/Dashboard.tsx:27 | a rearrangement of a list without repetitions has none |
| Seqs.FirstIndex | components/Dashboard.tsx:15 | the index of the first satisfying element, or none exactly when no element satisfies it |
| Seqs.Find | components/Dashboard.tsx:15 | `find`: the first satisfying element, or none exactly when no element satisfies it |
| Strings.SplitDate | components/Bookings.tsx:99 | `split(/[-/]/)` yields at least one piece |
| Strings.SplitDateParts | components/Bookings.tsx:99 | one more piece than separators, no piece holds a separator, and the pieces joined are the input without its separators |
| Strings.SplitDateOfJoin | components/Bookings.tsx:99 | three separator-free pieces joined by separators split back into them |
| Strings.BeforeT | components/TodayBookings.tsx:99 | `split('T')[0]` is the prefix before the first `T` |
| Strings.BeforeTOfPrefix | components/TodayBookings.tsx:99 | a date without `T`, followed by `T` or nothing, is its own date part |
| Strings.ParseIntOfNumeral | components/Bookings.tsx:106-112 | `parseInt` of digits followed by a non-digit is the digits' value (`"22T00:00"` reads 22) |
| Strings.ParseIntNaN | components/Bookings.tsx:106-112 | `parseInt` gives NaN exactly when no digit follows the white space and sign |
| Strings.ParseInt | components/Bookings.tsx:106-112 | definition of `parseInt(s, 10)`; see Strings.ParseIntOfNumeral and Strings.ParseIntNaN |
| Strings.ParseIntOfNatToString | components/BookingForm.tsx:118 | `parseInt(String(n))` is `n`, even with a non-digit suffix |
| Strings.NatToStringValue | components/TodayBookings.tsx:117 | reading a numeral back gives the number |
| Strings.TwoDigitsValue | components/TodayBookings.tsx:117 | zero padding does not change a numeral's value |
| Strings.Pad2 | components/TodayBookings.tsx:105 | `padStart(2, '0')` is at least two long, ends with the input, and adds only zeros |
| Strings.ToLower | components/Admin.tsx:112 | `toLowerCase` maps each character, keeping the length |
| Strings.ToLowerIdempotent | components/Admin.tsx:112 | lower-casing twice is lower-casing once |
| Strings.ReplaceAll | components/BookingForm.tsx:20 | `replace(/c/g, t)` removes every `c` when `t` has none, and brings in no other character |
| Strings.ReplaceAllAbsent | components/BookingForm.tsx:20 | replacing an absent character changes nothing |
| Strings.RemoveAll | components/Bookings.tsx:116 | removing the two direction marks leaves neither of them and never lengthens the text |
| Strings.TrimStart | components/Bookings.tsx:116 | `trimStart` drops exactly the leading white space |
| Strings.TrimEnd | components/Bookings.tsx:116 | `trimEnd` drops exactly the trailing white space |
| Strings.Trim | components/Bookings.tsx:116 | definition of `trim`; see Strings.TrimStart and Strings.TrimEnd |
| Strings.Contains | components/Admin.tsx:112 | definition of `includes`: the needle occurs at some index; see Admin.FilteredBookingsExact |
| Strings.StrLeTotal | components/BookingForm.tsx:187 | any two strings compare with `<=` |
| Strings.StrLeTransitive | components/TodayBookings.tsx:142 | the string order is transitive |
| Strings.StrLeAntisymmetric | components/TodayBookings.tsx:142 | two strings each `<=` the other are equal |
| Strings.StrLeReflexive | components/TodayBookings.tsx:142 | every string is `<=` itself |
| Strings.StrLe | components/TodayBookings.tsx:142 | definition of string `<=`; see Strings.StrLeTotal, Strings.StrLeTransitive, Strings.StrLeAntisymmetric and Strings.StrLeReflexive |

## Left out

- `services/apiService.ts` is not part of this model: the fetch and the POST to the spreadsheet script are I/O. The same goes for `loadData`, `handleAddBooking`, `handleUpdateBooking`, the loading, refreshing and submitting flags, and the toast with its timer.
- The engine's date services are parameters:
  - `isoClock` stands for `new Date(text)` with `getUTCHours`/`getUTCMinutes` in the ISO fallback of `parseDateTime`.
  - `construct` stands for `new Date(text)` in `parseCustomDateTime`.
  - `localInputs` stands for the offset-shifted `toISOString` split into date and time inputs.
  - `toIso` stands for `new Date(...).toISOString()` in `handleSubmit`.
  - `localeTime` and `format` stand for `toLocaleTimeString` and `Intl.DateTimeFormat`.
  These calls depend on the engine and the locale.
- The local time zone and daylight saving time are not modelled. Time values are milliseconds on a naive local clock, and the current time `now` and today's date are parameters.
- `Number(...) || 0` in the dashboard's meeting-type chart is not modelled: it is floating-point conversion feeding recharts, which only renders.
- Presentation is not modelled: status chips and CSS classes, the sidebar, header, modals, cards and charts, the window-focus refresh and React's scheduling. A memoised value is modelled as a function of its inputs.
- Dashboard.DepartmentBookings: `Object.entries` order is modelled as first-seen order. Integer-like department names, which JavaScript lists first, are not distinguished. The order of departments with equal counts is not promised.
- TodayBookings.GroupedBookings: a room named like an `Object.prototype` member (`__proto__`, `constructor`) would make the source's `groups[room].push` misbehave. The model treats every room name as an ordinary key.
- Bookings.Classify: for two bookings that both have unreadable starts the source's comparator is inconsistent (each sorts after the other), so ECMAScript leaves their order to the engine. The model keeps them in list order, as the stable sort does on a consistent comparator.
- Admin.SortedBookings and TodayBookings.GroupedBookings: the same holds for their unreadable starts.
- Dashboard.CountDepartments: a department named like an `Object.prototype` member is not an ordinary key in the source. `counts['__proto__'] = n` is ignored, so that department vanishes from the entries; `constructor` or `toString` start from the inherited function and get a text count. The model treats every department name as an ordinary key.
- DateTime.ReadDateParts: `dateParts[0].length === 4` and `padStart` count UTF-16 code units, and the model counts characters. They differ only for characters outside the Basic Multilingual Plane: `12😀/05/2024` reads year-first in the source and day-first in the model. TodayBookings.NormalizeDate has the same gap.
- Strings.ParseInt: the value is an exact integer. JavaScript rounds a number above 2^53 to a double.
- Calendar.LocalTimeValue: the day number is computed on exact integers and only the final value is clipped to ±8.64e15 ms. ECMAScript MakeDay gives NaN already when the year or month is out of range, so a date such as `366000000/1/-1000001` is `null` in the engine but a time value in the model.
- Strings.StrLe: the order compares `char` values. JavaScript compares UTF-16 code units, which differs only for characters outside the Basic Multilingual Plane.
- Strings.ToLower: only Latin capitals are lower-cased, which is all the case folding the search and the markers meet in this data.
- BookingForm.LayoutAt: the second regex has no `i` flag, so the model matches `AM`/`PM` in capitals only. An hour written with one digit followed by a second digit is read with two digits, as the greedy `\d{1,2}` does.
- BookingForm.BookingFormState.LoadBooking: `{ ...getInitialData(), ...booking }` is modelled as the booking itself, because a booking record holds every field of the initial data.
