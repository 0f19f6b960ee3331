/**
 * The booking form: the suggestion lists for names and departments, the hospitality suggested for the
 * meeting type, the field updates of the inputs, the date and time inputs (with the end time reset when
 * the start moves past it), the record sent on submit, and the string clean-up that precedes date parsing
 * of the combined `من`/`إلى` texts.
 */
module BookingForm {
  import opened Options
  import opened Strings
  import opened Seqs
  import opened Sorting
  import opened DateTime
  import opened Records

  // ---------------------------------------------------------------------------
  // parseCustomDateTime

  /** The three global replacements before parsing: each Arabic evening marker becomes `PM`, each Arabic
      morning marker `AM`, and each `/` a `-`. */
  function NormalizeMarkers(s: string): (r: string)
    ensures ArabicPm !in r && ArabicAm !in r && '/' !in r
  {
    ReplaceAll(ReplaceAll(ReplaceAll(s, ArabicPm, "PM"), ArabicAm, "AM"), '/', "-")
  }

  /** A text without Arabic markers and without `/` is already normal. */
  lemma NormalizeMarkersUnchanged(s: string)
    requires ArabicPm !in s && ArabicAm !in s && '/' !in s
    ensures NormalizeMarkers(s) == s
  {
    ReplaceAllAbsent(s, ArabicPm, "PM");
    ReplaceAllAbsent(s, ArabicAm, "AM");
    ReplaceAllAbsent(s, '/', "-");
  }

  /** Normalising twice is normalising once. */
  lemma NormalizeMarkersIdempotent(s: string)
    ensures NormalizeMarkers(NormalizeMarkers(s)) == NormalizeMarkers(s)
  {
    NormalizeMarkersUnchanged(NormalizeMarkers(s));
  }

  /** `n` digits start at index `i`. */
  predicate DigitsAt(s: string, i: nat, n: nat) {
    i + n <= |s| && forall k :: i <= k < i + n ==> IsDigit(s[k])
  }

  /** The three groups of one match of `/(\d{1,2}:\d{2}:\d{2})\s*(AM|PM)\s*(\d{4}-\d{2}-\d{2})/`: the time,
      the marker and the date. */
  datatype LayoutMatch = LayoutMatch(time: string, marker: string, date: string)

  /** `:\d{2}:\d{2}` at index `c`: the minutes and seconds after the hour. */
  predicate MinutesSecondsAt(s: string, c: nat) {
    c + 6 <= |s| && s[c] == ':' && DigitsAt(s, c + 1, 2) && s[c + 3] == ':' && DigitsAt(s, c + 4, 2)
  }

  /** `AM` or `PM` at index `j`, in capitals. */
  predicate MarkerTextAt(s: string, j: nat) {
    j + 2 <= |s| && (s[j..j + 2] == "AM" || s[j..j + 2] == "PM")
  }

  /** `\d{4}-\d{2}-\d{2}` at index `k`. */
  predicate IsoDateAt(s: string, k: nat) {
    k + 10 <= |s| && DigitsAt(s, k, 4) && s[k + 4] == '-' && DigitsAt(s, k + 5, 2) && s[k + 7] == '-' &&
    DigitsAt(s, k + 8, 2)
  }

  /** The match of the time-then-date pattern that starts exactly at index `i`. The hour takes two digits
      when there are two (one digit can then never be followed by the colon), else one. */
  function LayoutAt(s: string, i: nat): (r: Option<LayoutMatch>)
    requires i <= |s|
    ensures r.Some? ==> |r.value.date| == 10 && (r.value.marker == "AM" || r.value.marker == "PM")
  {
    var h := if DigitsAt(s, i, 2) then 2 else if DigitsAt(s, i, 1) then 1 else 0;
    if h == 0 || !MinutesSecondsAt(s, i + h) then None
    else
      var j := SkipSpaces(s, i + h + 6);
      if !MarkerTextAt(s, j) then None
      else
        var k := SkipSpaces(s, j + 2);
        if IsoDateAt(s, k) then Some(LayoutMatch(s[i..i + h + 6], s[j..j + 2], s[k..k + 10])) else None
  }

  /** The pattern read at `i` with the hour taking `h` digits, the marker at `j` and the date at `k`: one or
      two hour digits, the minutes and seconds, white space, `AM` or `PM`, white space, and the date. */
  predicate LayoutPieces(s: string, i: nat, h: nat, j: nat, k: nat) {
    && (h == 1 || h == 2) && DigitsAt(s, i, h) && MinutesSecondsAt(s, i + h)
    && i + h + 6 <= j && j + 2 <= k && IsoDateAt(s, k)
    && (forall p :: i + h + 6 <= p < j ==> IsSpace(s[p])) && MarkerTextAt(s, j)
    && (forall p :: j + 2 <= p < k ==> IsSpace(s[p]))
  }

  /** The hour takes exactly the digits before the colon: `\d{1,2}` cannot take the colon. */
  lemma HourWidth(s: string, i: nat, h: nat)
    requires (h == 1 || h == 2) && DigitsAt(s, i, h) && MinutesSecondsAt(s, i + h)
    ensures (if DigitsAt(s, i, 2) then 2 else if DigitsAt(s, i, 1) then 1 else 0) == h
  {
    if h == 1 {
      assert !IsDigit(s[i + 1]);
    }
  }

  /** White space from `a` up to a character that is not white space ends where `\s*` stops. */
  lemma {:induction false} SkipSpacesTo(s: string, a: nat, b: nat)
    requires a <= b < |s| && !IsSpace(s[b])
    requires forall p :: a <= p < b ==> IsSpace(s[p])
    ensures SkipSpaces(s, a) == b
    decreases b - a
  {
    if a < b {
      assert IsSpace(s[a]);
      SkipSpacesTo(s, a + 1, b);
    }
  }

  /** A marker does not start with white space, so `\s*` stops before it. */
  lemma MarkerNotSpace(s: string, j: nat)
    requires MarkerTextAt(s, j)
    ensures j < |s| && !IsSpace(s[j])
  {
    assert s[j] == s[j..j + 2][0];
  }

  /** A date does not start with white space, so `\s*` stops before it. */
  lemma DateNotSpace(s: string, k: nat)
    requires IsoDateAt(s, k)
    ensures k < |s| && !IsSpace(s[k])
  {
    assert IsDigit(s[k]);
  }

  /** Wherever the pattern can be read at `i`, the match at `i` is found, and its groups are the time, the
      marker and the date so read. */
  lemma LayoutAtOfPieces(s: string, i: nat, h: nat, j: nat, k: nat)
    requires LayoutPieces(s, i, h, j, k)
    ensures LayoutAt(s, i) == Some(LayoutMatch(s[i..i + h + 6], s[j..j + 2], s[k..k + 10]))
  {
    HourWidth(s, i, h);
    MarkerNotSpace(s, j);
    SkipSpacesTo(s, i + h + 6, j);
    DateNotSpace(s, k);
    SkipSpacesTo(s, j + 2, k);
    LayoutAtOfStops(s, i, h, j, k);
  }

  /** The match at `i` once the hour width and the two places where `\s*` stops are known. */
  lemma LayoutAtOfStops(s: string, i: nat, h: nat, j: nat, k: nat)
    requires i <= |s| && (h == 1 || h == 2) && MinutesSecondsAt(s, i + h)
    requires (if DigitsAt(s, i, 2) then 2 else if DigitsAt(s, i, 1) then 1 else 0) == h
    requires SkipSpaces(s, i + h + 6) == j && MarkerTextAt(s, j)
    requires SkipSpaces(s, j + 2) == k && IsoDateAt(s, k)
    ensures LayoutAt(s, i) == Some(LayoutMatch(s[i..i + h + 6], s[j..j + 2], s[k..k + 10]))
  {
  }

  /** Conversely, a match at `i` is the pattern read there: its groups are the time, marker and date of
      such a reading. */
  lemma LayoutAtHasPieces(s: string, i: nat)
    requires i <= |s| && LayoutAt(s, i).Some?
    ensures exists h: nat, j: nat, k: nat ::
              LayoutPieces(s, i, h, j, k) &&
              LayoutAt(s, i).value == LayoutMatch(s[i..i + h + 6], s[j..j + 2], s[k..k + 10])
  {
    var h: nat := if DigitsAt(s, i, 2) then 2 else 1;
    assert DigitsAt(s, i, h) && MinutesSecondsAt(s, i + h);
    var j := SkipSpaces(s, i + h + 6);
    assert MarkerTextAt(s, j);
    var k := SkipSpaces(s, j + 2);
    assert IsoDateAt(s, k);
    assert LayoutAt(s, i).value == LayoutMatch(s[i..i + h + 6], s[j..j + 2], s[k..k + 10]);
    assert LayoutPieces(s, i, h, j, k);
  }

  /** The leftmost match at or after index `i`. */
  function LayoutFrom(s: string, i: nat): (r: Option<LayoutMatch>)
    requires i <= |s|
    decreases |s| - i
  {
    if i == |s| || LayoutAt(s, i).Some? then LayoutAt(s, i) else LayoutFrom(s, i + 1)
  }

  /** The search finds the leftmost match at or after `i`, and finds none only when there is none. */
  lemma LayoutFromLeftmost(s: string, i: nat)
    requires i <= |s|
    ensures LayoutFrom(s, i).None? <==> forall k :: i <= k <= |s| ==> LayoutAt(s, k).None?
    ensures LayoutFrom(s, i).Some? ==>
      exists k :: i <= k <= |s| && LayoutAt(s, k) == LayoutFrom(s, i) && forall j :: i <= j < k ==> LayoutAt(s, j).None?
  {
    if LayoutFrom(s, i).None? {
      NoLayoutFrom(s, i);
    } else {
      LayoutFromFound(s, i);
    }
  }

  /** When the search finds nothing, there is no match at or after `i`. */
  lemma {:induction false} NoLayoutFrom(s: string, i: nat)
    requires i <= |s| && LayoutFrom(s, i).None?
    ensures forall k :: i <= k <= |s| ==> LayoutAt(s, k).None?
    decreases |s| - i
  {
    assert LayoutAt(s, i).None?;
    if i < |s| {
      NoLayoutFrom(s, i + 1);
    }
  }

  /** What the search finds is the match at some index with none before it. */
  lemma {:induction false} LayoutFromFound(s: string, i: nat)
    requires i <= |s| && LayoutFrom(s, i).Some?
    ensures exists k :: i <= k <= |s| && LayoutAt(s, k) == LayoutFrom(s, i) && forall j :: i <= j < k ==> LayoutAt(s, j).None?
    decreases |s| - i
  {
    if i < |s| && LayoutAt(s, i).None? {
      assert LayoutFrom(s, i) == LayoutFrom(s, i + 1);
      LayoutFromFound(s, i + 1);
      var k :| i + 1 <= k <= |s| && LayoutAt(s, k) == LayoutFrom(s, i + 1) && forall j :: i + 1 <= j < k ==> LayoutAt(s, j).None?;
      forall j | i <= j < k
        ensures LayoutAt(s, j).None?
      {
        if j == i {
          assert LayoutAt(s, i).None?;
        }
      }
    } else {
      assert LayoutAt(s, i) == LayoutFrom(s, i);
    }
  }

  /** `${date} ${time} ${ampm}`: the matched layout rearranged date first. */
  function Rearranged(m: LayoutMatch): string {
    m.date + " " + m.time + " " + m.marker
  }

  /** `parseCustomDateTime`: the first of three attempts that the engine's date parser `construct` accepts:
      the normalised text; the normalised text's time-then-date layout rearranged as date, time, marker;
      and the original text. `None` (`null`) for a missing or empty text or when all three fail. */
  function ParseCustomDateTime(dateString: Option<string>, construct: string -> Option<int>): (r: Option<int>)
    ensures Blank(dateString) ==> r.None?
    ensures !Blank(dateString) && construct(NormalizeMarkers(dateString.value)).Some? ==>
      r == construct(NormalizeMarkers(dateString.value))
    ensures (!Blank(dateString) && construct(NormalizeMarkers(dateString.value)).None? &&
             LayoutFrom(NormalizeMarkers(dateString.value), 0).Some? &&
             construct(Rearranged(LayoutFrom(NormalizeMarkers(dateString.value), 0).value)).Some?) ==>
      r == construct(Rearranged(LayoutFrom(NormalizeMarkers(dateString.value), 0).value))
    ensures (!Blank(dateString) && construct(NormalizeMarkers(dateString.value)).None? &&
             !(LayoutFrom(NormalizeMarkers(dateString.value), 0).Some? &&
               construct(Rearranged(LayoutFrom(NormalizeMarkers(dateString.value), 0).value)).Some?)) ==>
      r == construct(dateString.value)
    ensures !Blank(dateString) && r.None? ==> construct(dateString.value).None?
  {
    if Blank(dateString) then None
    else
      var normalized := NormalizeMarkers(dateString.value);
      if construct(normalized).Some? then construct(normalized)
      else
        var layout := LayoutFrom(normalized, 0);
        if layout.Some? && construct(Rearranged(layout.value)).Some? then construct(Rearranged(layout.value))
        else construct(dateString.value)
  }

  /** The text the sheet's `إلى` cells become once normalised. */
  const SheetText := "3:00:00 PM 2025-11-12"

  /** The time the pattern reads in `SheetText`: one hour digit, then the minutes and seconds. */
  lemma SheetTimePieces()
    ensures !DigitsAt(SheetText, 0, 2) && DigitsAt(SheetText, 0, 1)
    ensures SheetText[1] == ':' && DigitsAt(SheetText, 2, 2) && SheetText[4] == ':' && DigitsAt(SheetText, 5, 2)
    ensures SheetText[0..7] == "3:00:00"
  {
    assert !IsDigit(SheetText[1]);
  }

  /** The marker the pattern reads in `SheetText`, between single spaces. */
  lemma SheetMarkerPieces()
    ensures SkipSpaces(SheetText, 7) == 8 && SheetText[8..10] == "PM" && SkipSpaces(SheetText, 10) == 11
  {
    assert SkipSpaces(SheetText, 8) == 8;
    assert SkipSpaces(SheetText, 11) == 11;
  }

  /** The date the pattern reads in `SheetText`. */
  lemma SheetDatePieces()
    ensures DigitsAt(SheetText, 11, 4) && SheetText[15] == '-' && DigitsAt(SheetText, 16, 2)
    ensures SheetText[18] == '-' && DigitsAt(SheetText, 19, 2)
    ensures SheetText[11..21] == "2025-11-12"
  {
  }

  /** In `SheetText`, the sheet's `إلى` example `3:00:00 م 2025/11/12` once normalised, the time-then-date
      layout is found and rearranged as `2025-11-12 3:00:00 PM`. */
  lemma SheetLayoutFound()
    ensures LayoutFrom(SheetText, 0) == Some(LayoutMatch("3:00:00", "PM", "2025-11-12"))
    ensures Rearranged(LayoutMatch("3:00:00", "PM", "2025-11-12")) == "2025-11-12 3:00:00 PM"
  {
    SheetTimePieces();
    SheetMarkerPieces();
    SheetDatePieces();
    assert LayoutAt(SheetText, 0) == Some(LayoutMatch("3:00:00", "PM", "2025-11-12"));
  }

  // ---------------------------------------------------------------------------
  // Lists and suggestions

  /** `[...new Set(texts)].sort()`: every text once, in increasing text order. */
  method DistinctSorted(texts: seq<string>) returns (r: seq<string>)
    ensures forall x :: x in r <==> x in texts
    ensures forall i, j :: 0 <= i < j < |r| ==> StrLe(r[i], r[j]) && r[i] != r[j]
  {
    var d := Distinct(texts);
    r := SortTexts(d);
    forall x
      ensures x in r <==> x in d
    {
      assert x in r <==> x in multiset(r);
      assert x in d <==> x in multiset(d);
    }
  }

  /** `employeeNames`: the names of the bookings' employees, each once, in text order. */
  method EmployeeNames(allBookings: seq<Booking>) returns (names: seq<string>)
    ensures forall x :: x in names <==> exists i :: 0 <= i < |allBookings| && allBookings[i].employee == x
    ensures forall i, j :: 0 <= i < j < |names| ==> StrLe(names[i], names[j]) && names[i] != names[j]
  {
    var employees := seq(|allBookings|, i requires 0 <= i < |allBookings| => allBookings[i].employee);
    names := DistinctSorted(employees);
    forall x | exists i :: 0 <= i < |allBookings| && allBookings[i].employee == x
      ensures x in employees
    {
      var i :| 0 <= i < |allBookings| && allBookings[i].employee == x;
      assert employees[i] == x;
    }
  }

  /** `departments`: the bookings' departments, each once, in text order. */
  method Departments(allBookings: seq<Booking>) returns (departments: seq<string>)
    ensures forall x :: x in departments <==> exists i :: 0 <= i < |allBookings| && allBookings[i].department == x
    ensures forall i, j :: 0 <= i < j < |departments| ==>
      StrLe(departments[i], departments[j]) && departments[i] != departments[j]
  {
    var all := seq(|allBookings|, i requires 0 <= i < |allBookings| => allBookings[i].department);
    departments := DistinctSorted(all);
    forall x | exists i :: 0 <= i < |allBookings| && allBookings[i].department == x
      ensures x in all
    {
      var i :| 0 <= i < |allBookings| && allBookings[i].department == x;
      assert all[i] == x;
    }
  }

  /** The hospitality suggested for a meeting type: that of the first rule for the type, or nothing. */
  function SuggestedHospitality(hospitality: seq<Hospitality>, meetingType: string): (r: string)
    ensures (forall i :: 0 <= i < |hospitality| ==> hospitality[i].meetingType != meetingType) ==> r == ""
    ensures forall i :: (0 <= i < |hospitality| && hospitality[i].meetingType == meetingType &&
      forall j :: 0 <= j < i ==> hospitality[j].meetingType != meetingType) ==> r == hospitality[i].hospitalityType
  {
    match Find(hospitality, (h: Hospitality) => h.meetingType == meetingType)
    case Some(h) => h.hospitalityType
    case None => ""
  }

  // ---------------------------------------------------------------------------
  // Form fields

  /** `getInitialData()`: an empty internal meeting for one attendee, pending, in the first room. */
  function InitialData(rooms: seq<Room>): (d: Booking)
    ensures d.id == "" && d.status == Pending && d.attendees == 1 && d.meetingType == Internal
    ensures d.room == if rooms == [] then "" else rooms[0].name
  {
    Booking("", "", "", "", Internal, "", "", 1, if rooms == [] then "" else rooms[0].name, Pending, "", "",
            None, None, None, None, None, None)
  }

  /** The inputs `handleChange` serves, by their `name`. */
  datatype Field = TitleField | EmployeeField | DepartmentField | RoomField | MeetingTypeField
                 | AttendeesField | HospitalityField | NotesField

  /** `parseInt(value, 10) || 1`: the number typed, with `NaN` and 0 read as 1. */
  function AttendeeCount(value: string): (n: int)
    ensures n != 0
    ensures ParseInt(value).None? || ParseInt(value).value == 0 ==> n == 1
    ensures ParseInt(value).Some? && ParseInt(value).value != 0 ==> n == ParseInt(value).value
  {
    match ParseInt(value)
    case Some(v) => if v == 0 then 1 else v
    case None => 1
  }

  /** A positive count typed as digits is kept as it is. */
  lemma AttendeeCountOfNumeral(n: nat)
    requires n >= 1
    ensures AttendeeCount(NatToString(n)) == n
  {
    ParseIntOfNatToString(n, []);
    assert NatToString(n) + [] == NatToString(n);
  }

  /** The text a field holds; the attendee count has none. */
  function TextOf(d: Booking, f: Field): Option<string> {
    match f
    case TitleField => Some(d.title)
    case EmployeeField => Some(d.employee)
    case DepartmentField => Some(d.department)
    case RoomField => Some(d.room)
    case MeetingTypeField => Some(d.meetingType)
    case AttendeesField => None
    case HospitalityField => Some(d.hospitality)
    case NotesField => Some(d.notes)
  }

  /** The form data after an input changes: the named field takes the typed text, except the attendee count,
      which takes the number read from it. */
  function WithField(d: Booking, f: Field, value: string): (r: Booking)
  {
    match f
    case TitleField => d.(title := value)
    case EmployeeField => d.(employee := value)
    case DepartmentField => d.(department := value)
    case RoomField => d.(room := value)
    case MeetingTypeField => d.(meetingType := value)
    case AttendeesField => d.(attendees := AttendeeCount(value))
    case HospitalityField => d.(hospitality := value)
    case NotesField => d.(notes := value)
  }

  /** A change sets the named field and leaves every other field, the fields no input edits included, as it
      was. */
  lemma WithFieldOnlyThatField(d: Booking, f: Field, value: string, g: Field)
    ensures f != AttendeesField ==> TextOf(WithField(d, f, value), f) == Some(value)
    ensures f == AttendeesField ==> WithField(d, f, value).attendees == AttendeeCount(value)
    ensures g != f ==> TextOf(WithField(d, f, value), g) == TextOf(d, g)
    ensures f != AttendeesField ==> WithField(d, f, value).attendees == d.attendees
    ensures var r := WithField(d, f, value);
      r.id == d.id && r.from == d.from && r.to == d.to && r.status == d.status &&
      r.operationDate == d.operationDate && r.operationTime == d.operationTime && r.email == d.email &&
      r.date == d.date && r.startTime == d.startTime && r.endTime == d.endTime
  {
  }

  /** The form's state. */
  class BookingFormState {
    /** The booking being edited, or `None` for a new one. */
    const booking: Option<Booking>
    const rooms: seq<Room>
    const hospitality: seq<Hospitality>
    var formData: Booking
    var bookingDate: string
    var startTime: string
    var endTime: string

    /** The first render: the initial data and empty date and time inputs. */
    constructor (booking: Option<Booking>, rooms: seq<Room>, hospitality: seq<Hospitality>)
      ensures this.booking == booking && this.rooms == rooms && this.hospitality == hospitality
      ensures formData == InitialData(rooms)
      ensures formData.status == Pending && formData.attendees == 1
      ensures formData.room == if rooms == [] then "" else rooms[0].name
      ensures bookingDate == "" && startTime == "" && endTime == ""
    {
      this.booking, this.rooms, this.hospitality := booking, rooms, hospitality;
      formData := InitialData(rooms);
      bookingDate, startTime, endTime := "", "", "";
    }

    /** The effect on `[booking, rooms]`. An edited booking is copied into the form, and its `من` and `إلى`
        texts, when they parse, fill the date and time inputs through `localInputs`: the local date
        `YYYY-MM-DD` and time `HH:mm` of a time value (the engine's offset-shifted `toISOString`). Inputs
        whose text does not parse are emptied. A new booking resets the form. */
    method LoadBooking(construct: string -> Option<int>, localInputs: int -> (string, string))
      modifies this`formData, this`bookingDate, this`startTime, this`endTime
      ensures booking.None? ==> formData == InitialData(rooms) && bookingDate == "" && startTime == "" && endTime == ""
      ensures booking.Some? ==> formData == booking.value
      ensures booking.Some? ==>
        match ParseCustomDateTime(Some(booking.value.from), construct)
        case Some(t) => bookingDate == localInputs(t).0 && startTime == localInputs(t).1
        case None => bookingDate == "" && startTime == ""
      ensures booking.Some? ==>
        match ParseCustomDateTime(Some(booking.value.to), construct)
        case Some(t) => endTime == localInputs(t).1
        case None => endTime == ""
    {
      if booking.Some? {
        var fromDate := ParseCustomDateTime(Some(booking.value.from), construct);
        var toDate := ParseCustomDateTime(Some(booking.value.to), construct);
        if fromDate.Some? {
          var (date, time) := localInputs(fromDate.value);
          bookingDate := date;
          startTime := time;
        } else {
          bookingDate := "";
          startTime := "";
        }
        if toDate.Some? {
          endTime := localInputs(toDate.value).1;
        } else {
          endTime := "";
        }
        formData := booking.value;
      } else {
        formData := InitialData(rooms);
        bookingDate, startTime, endTime := "", "", "";
      }
    }

    /** The effect on the meeting type: the hospitality field becomes the suggestion for the form's meeting
        type, or empty when there is none; nothing else changes. */
    method SuggestHospitality()
      modifies this`formData
      ensures formData == old(formData).(hospitality := SuggestedHospitality(hospitality, old(formData).meetingType))
    {
      formData := formData.(hospitality := SuggestedHospitality(hospitality, formData.meetingType));
    }

    /** `handleChange`: the named field takes the typed value (the attendee count its number, 1 for `NaN` or
        0). */
    method HandleChange(f: Field, value: string)
      modifies this`formData
      ensures formData == WithField(old(formData), f, value)
    {
      formData := WithField(formData, f, value);
    }

    /** The date input's `onChange`. */
    method SetBookingDate(value: string)
      modifies this`bookingDate
      ensures bookingDate == value
    {
      bookingDate := value;
    }

    /** The start input's `onChange`: the start takes the value, and a non-empty end that now lies before
        it (as text) is cleared. Afterwards the end is empty or not before the start. */
    method ChangeStartTime(value: string)
      modifies this`startTime, this`endTime
      ensures startTime == value
      ensures endTime == if old(endTime) != "" && !StrLe(value, old(endTime)) then "" else old(endTime)
      ensures endTime == "" || StrLe(startTime, endTime)
    {
      startTime := value;
      if endTime != "" && !StrLe(value, endTime) {
        endTime := "";
      }
    }

    /** The end input's `onChange`. */
    method SetEndTime(value: string)
      modifies this`endTime
      ensures endTime == value
    {
      endTime := value;
    }

    /** `handleSubmit`: the form's record with `من` and `إلى` set to the ISO texts of the date at the start
        and end times, and the id of the edited booking (empty for a new one). `toIso` is the engine's
        `new Date(text).toISOString()`, `None` where it throws on an invalid date, in which case nothing is
        sent. */
    method HandleSubmit(toIso: string -> Option<string>) returns (sent: Option<Booking>)
      ensures sent.Some? <==>
        toIso(bookingDate + "T" + startTime).Some? && toIso(bookingDate + "T" + endTime).Some?
      ensures sent.Some? ==> sent.value.id == (if booking.Some? then booking.value.id else "")
      ensures sent.Some? ==> sent.value.from == toIso(bookingDate + "T" + startTime).value
      ensures sent.Some? ==> sent.value.to == toIso(bookingDate + "T" + endTime).value
      ensures sent.Some? ==> sent.value == formData.(from := sent.value.from, to := sent.value.to, id := sent.value.id)
    {
      var fromIso := toIso(bookingDate + "T" + startTime);
      var toIsoText := toIso(bookingDate + "T" + endTime);
      if fromIso.None? || toIsoText.None? {
        return None;
      }
      var id := if booking.Some? then booking.value.id else "";
      sent := Some(formData.(from := fromIso.value, to := toIsoText.value, id := id));
    }
  }
}
