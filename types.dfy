/** The record shapes of the school's collections (grades, absences,
    homework, announcements, messages, timetable slots). Dates that the
    pages compare or sort are instants in milliseconds; dates that are only
    displayed stay strings. */
module Types {
  import opened Common

  datatype Role = Student | Teacher

  datatype Grade = Grade(
    id: string,
    studentId: string,
    subject: string,
    value: real,
    date: string,
    term: int,
    comment: string)

  /** The values of a list of grades, in order: `grades.map(g => g.value)`. */
  function Values(gs: seq<Grade>): (vs: seq<real>)
    ensures |vs| == |gs|
    ensures forall i :: 0 <= i < |gs| ==> vs[i] == gs[i].value
  {
    if gs == [] then [] else [gs[0].value] + Values(gs[1..])
  }

  datatype AbsenceStatus = Excused | Unexcused

  /** The status as the store spells it. */
  function StatusName(s: AbsenceStatus): string
  {
    match s
    case Excused => "excused"
    case Unexcused => "unexcused"
  }

  /** `subject` is declared mandatory, but the attendance sheet, the only
      page that writes absences, stores them without one; here it is
      optional so that those records can be represented. */
  datatype Absence = Absence(
    id: string,
    studentId: string,
    date: string,
    subject: Option<string>,
    period: int,
    status: AbsenceStatus,
    teacherId: string)

  datatype Homework = Homework(
    id: string,
    classId: string,
    subject: string,
    title: string,
    description: string,
    deadline: int,
    teacherId: string,
    createdAt: int)

  datatype Announcement = Announcement(
    id: string,
    title: string,
    content: string,
    targetClass: string,
    teacherId: string,
    teacherName: string,
    createdAt: int)

  datatype Message = Message(
    id: string,
    fromId: string,
    fromName: string,
    fromRole: Role,
    toId: string,
    toName: string,
    toRole: Role,
    subject: string,
    content: string,
    createdAt: int,
    read: bool)

  datatype Day = Monday | Tuesday | Wednesday | Thursday | Friday

  datatype TimetableSlot = TimetableSlot(
    id: string,
    day: Day,
    period: int,
    subject: string,
    teacher: string,
    room: string)
}
