/**
 * The records the dashboard reads from its spreadsheet back end: bookings, hospitality rules, rooms and
 * dashboard indicators, and the views of the application.
 */
module Records {
  import opened Options
  import opened Strings

  /** A booking. The first twelve fields are always present; the operation date and time and the e-mail
      are optional, and so are the date and the start and end times the list views sort and classify by
      (`التاريخ`, `من الساعة`, `إلى الساعة`), which the sheet may or may not supply. */
  datatype Booking = Booking(
    id: string,              // رقم الحجز
    employee: string,        // اسم الموظف
    department: string,      // الإدارة
    title: string,           // عنوان الاجتماع
    meetingType: string,     // نوع الاجتماع: داخلي or خارجي
    from: string,            // من
    to: string,              // إلى
    attendees: int,          // عدد الحضور
    room: string,            // القاعة
    status: string,          // الحالة
    hospitality: string,     // الضيافة
    notes: string,           // الملاحظات
    operationDate: Option<string>,  // تاريخ العملية
    operationTime: Option<string>,  // وقت العملية
    email: Option<string>,
    date: Option<string>,           // التاريخ
    startTime: Option<string>,      // من الساعة
    endTime: Option<string>)        // إلى الساعة

  /** The hospitality served for one meeting type. */
  datatype Hospitality = Hospitality(meetingType: string, hospitalityType: string, notes: string)

  datatype Room = Room(name: string, location: string, capacity: int, available: string)

  /** An indicator's value is a string or a number. */
  datatype IndicatorValue = Text(text: string) | Number(number: real)

  datatype DashboardEntry = DashboardEntry(indicator: string, value: IndicatorValue, notes: string)

  datatype View = DashboardView | BookingsView | HospitalityView | RoomsView | AdminView | TodayView

  const Pending := "قيد الانتظار"
  const Internal := "داخلي"

  /** `Object.values(booking).map(String)`: the text of every field the record holds. */
  function FieldTexts(b: Booking): seq<string> {
    [b.id, b.employee, b.department, b.title, b.meetingType, b.from, b.to, IntToString(b.attendees), b.room,
     b.status, b.hospitality, b.notes]
    + (if b.operationDate.Some? then [b.operationDate.value] else [])
    + (if b.operationTime.Some? then [b.operationTime.value] else [])
    + (if b.email.Some? then [b.email.value] else [])
    + (if b.date.Some? then [b.date.value] else [])
    + (if b.startTime.Some? then [b.startTime.value] else [])
    + (if b.endTime.Some? then [b.endTime.value] else [])
  }
}
