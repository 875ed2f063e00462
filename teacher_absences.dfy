/** The teacher's attendance sheet (`TeacherAbsences`): a per-student
    toggle map, the absence records built from it for the students not
    marked present, and the save loop that writes them one at a time. */
module TeacherAbsences {
  import opened Common

  datatype Mark = Present | Excused | Unexcused

  datatype Student = Student(id: string, name: string, className: string)

  // ---------------------------------------------------------------------
  // toggleAttendance
  // ---------------------------------------------------------------------

  /** `{ ...prev, [id]: prev[id] === s ? 'present' : s }`. */
  function Toggle(m: map<string, Mark>, id: string, s: Mark): (r: map<string, Mark>)
    ensures r.Keys == m.Keys + {id}
    ensures forall k :: k in m && k != id ==> r[k] == m[k]
    ensures r[id] == Present <==> s == Present || (id in m && m[id] == s)
    ensures r[id] == Present || r[id] == s
  {
    m[id := if id in m && m[id] == s then Present else s]
  }

  /** Toggling `present` always leaves the student present; toggling the
      same absence twice returns a student to present, unless the student
      already had that absence, in which case it is back to that absence. */
  lemma ToggleTwice(m: map<string, Mark>, id: string, s: Mark)
    ensures Toggle(m, id, Present)[id] == Present
    ensures Toggle(Toggle(m, id, s), id, s)[id] == if s != Present && id in m && m[id] == s then s else Present
  {
  }

  // ---------------------------------------------------------------------
  // Building the absence records
  // ---------------------------------------------------------------------

  /** `students.find(s => s.id === id)?.name`: the name of the first roster
      entry with that id, undefined when there is none. */
  function FindName(roster: seq<Student>, id: string): (r: Option<string>)
    ensures r.None? <==> forall i :: 0 <= i < |roster| ==> roster[i].id != id
    ensures r.Some? ==> exists i :: 0 <= i < |roster| && roster[i].id == id && roster[i].name == r.value
                                    && forall j :: 0 <= j < i ==> roster[j].id != id
  {
    if roster == [] then None
    else if roster[0].id == id then Some(roster[0].name)
    else
      var r := FindName(roster[1..], id);
      assert r.Some? ==> exists i :: 1 <= i < |roster| && roster[i].id == id && roster[i].name == r.value
                                     && forall j :: 0 <= j < i ==> roster[j].id != id;
      r
  }

  /** What the handler captures besides the map: the roster, the selected
      class, date and period, and the signed-in teacher (`user?.uid`). */
  datatype Session = Session(
    roster: seq<Student>,
    className: string,
    date: string,
    period: int,
    teacherId: Option<string>)

  datatype AbsenceRecord = AbsenceRecord(
    studentId: string,
    studentName: Option<string>,
    className: string,
    date: string,
    period: int,
    status: Mark,
    teacherId: Option<string>)

  /** The record written for one map entry. */
  function ToAbsence(id: string, status: Mark, ctx: Session): AbsenceRecord
  {
    AbsenceRecord(id, FindName(ctx.roster, id), ctx.className, ctx.date, ctx.period, status, ctx.teacherId)
  }

  function StudentIds(rs: seq<AbsenceRecord>): (ids: seq<string>)
    ensures |ids| == |rs|
    ensures forall i :: 0 <= i < |rs| ==> ids[i] == rs[i].studentId
  {
    seq(|rs|, i requires 0 <= i < |rs| => rs[i].studentId)
  }

  /** `entries.filter(([_, s]) => s !== 'present').map(...)` over the keys
      `order`, in that order. */
  function AbsencesFor(order: seq<string>, m: map<string, Mark>, ctx: Session): (r: seq<AbsenceRecord>)
    requires forall i :: 0 <= i < |order| ==> order[i] in m
    ensures forall i :: 0 <= i < |r| ==> r[i].studentId in m && r[i] == ToAbsence(r[i].studentId, m[r[i].studentId], ctx)
  {
    if order == [] then []
    else if m[order[0]] != Present then [ToAbsence(order[0], m[order[0]], ctx)] + AbsencesFor(order[1..], m, ctx)
    else AbsencesFor(order[1..], m, ctx)
  }

  /** A student gets a record exactly when the student is among the keys
      and not marked present; the records follow the key order, and no
      student gets two when no key is listed twice. */
  lemma {:induction false} AbsencesForIds(order: seq<string>, m: map<string, Mark>, ctx: Session)
    requires forall i :: 0 <= i < |order| ==> order[i] in m
    ensures var ids := StudentIds(AbsencesFor(order, m, ctx));
      && (forall id :: id in ids <==> id in order && m[id] != Present)
      && IsSubsequence(ids, order)
      && (NoDuplicates(order) ==> NoDuplicates(ids))
  {
    if order != [] {
      var rest := AbsencesFor(order[1..], m, ctx);
      AbsencesForIds(order[1..], m, ctx);
      assert forall id :: id in order <==> id == order[0] || id in order[1..];
      if m[order[0]] != Present {
        var r := [ToAbsence(order[0], m[order[0]], ctx)] + rest;
        assert StudentIds(r) == [order[0]] + StudentIds(rest);
        assert StudentIds(r)[1..] == StudentIds(rest);
        if NoDuplicates(order) {
          assert forall i :: 1 <= i < |order| ==> order[i] != order[0];
        }
      } else {
        SubsequenceOfTail(StudentIds(rest), order);
      }
    }
  }

  /** `order` is `Object.keys(attendance)`: each key exactly once. */
  predicate IsEnumeration(order: seq<string>, m: map<string, Mark>)
  {
    && NoDuplicates(order)
    && (forall k :: k in m ==> k in order)
    && (forall i :: 0 <= i < |order| ==> order[i] in m)
  }

  /** The records `handleMarkAttendance` writes. */
  function BuildAbsences(m: map<string, Mark>, order: seq<string>, ctx: Session): seq<AbsenceRecord>
    requires IsEnumeration(order, m)
  {
    AbsencesFor(order, m, ctx)
  }

  /** Exactly one record per map entry whose status is not `present`, none
      for students without an entry, each carrying that student's id and
      status, the roster name, and the session's class, date, period and
      teacher, in key order. */
  lemma BuildAbsencesSpec(m: map<string, Mark>, order: seq<string>, ctx: Session)
    requires IsEnumeration(order, m)
    ensures var r := BuildAbsences(m, order, ctx);
      && (forall id :: id in StudentIds(r) <==> id in m && m[id] != Present)
      && NoDuplicates(StudentIds(r))
      && IsSubsequence(StudentIds(r), order)
      && (forall i :: 0 <= i < |r| ==>
            && r[i].studentId in m
            && r[i].status == m[r[i].studentId] != Present
            && r[i].studentName == FindName(ctx.roster, r[i].studentId)
            && r[i].className == ctx.className && r[i].date == ctx.date
            && r[i].period == ctx.period && r[i].teacherId == ctx.teacherId)
  {
    var r := BuildAbsences(m, order, ctx);
    AbsencesForIds(order, m, ctx);
    forall i | 0 <= i < |r| ensures m[r[i].studentId] != Present {
      assert r[i].studentId in StudentIds(r);
    }
  }

  // ---------------------------------------------------------------------
  // The save loop
  // ---------------------------------------------------------------------

  /** The index of the first write the store refuses among `n`, or `n`. */
  function FirstRejected(accept: nat -> bool, n: nat): (k: nat)
    ensures k <= n
    ensures forall i :: 0 <= i < k ==> accept(i)
    ensures k < n ==> !accept(k)
  {
    if n == 0 then 0
    else
      var k := FirstRejected(accept, n - 1);
      if k < n - 1 then k else if accept(n - 1) then n else n - 1
  }

  /** The page's state fields. */
  class AttendanceSheet {
    var selectedClass: string
    var selectedDate: string
    var selectedPeriod: int
    var attendance: map<string, Mark>

    constructor (today: string)
      ensures selectedClass == "" && selectedDate == today && selectedPeriod == 1
      ensures attendance == map[]
    {
      selectedClass := "";
      selectedDate := today;
      selectedPeriod := 1;
      attendance := map[];
    }

    method ToggleAttendance(studentId: string, status: Mark)
      modifies this
      ensures attendance == Toggle(old(attendance), studentId, status)
      ensures selectedClass == old(selectedClass) && selectedDate == old(selectedDate)
      ensures selectedPeriod == old(selectedPeriod)
    {
      attendance := Toggle(attendance, studentId, status);
    }

    /** `handleMarkAttendance`: the records are written in list order; the
        `i`-th write succeeds when `accept(i)`. The loop stops at the first
        refusal, leaving the later records unwritten and the map as it was;
        when every write succeeds the map is reset to empty. */
    method MarkAttendance(order: seq<string>, roster: seq<Student>, teacherId: Option<string>, accept: nat -> bool)
      returns (saved: seq<AbsenceRecord>, ok: bool)
      requires IsEnumeration(order, attendance)
      modifies this
      ensures var records := BuildAbsences(old(attendance), order, Session(roster, selectedClass, selectedDate, selectedPeriod, teacherId));
              var k := FirstRejected(accept, |records|);
              && saved == records[..k]
              && (ok <==> k == |records|)
              && attendance == if ok then map[] else old(attendance)
      ensures selectedClass == old(selectedClass) && selectedDate == old(selectedDate)
      ensures selectedPeriod == old(selectedPeriod)
    {
      var records := BuildAbsences(attendance, order, Session(roster, selectedClass, selectedDate, selectedPeriod, teacherId));
      saved := [];
      ok := true;
      var i := 0;
      while i < |records|
        invariant 0 <= i <= |records|
        invariant saved == records[..i]
        invariant forall j :: 0 <= j < i ==> accept(j)
        invariant ok
      {
        if !accept(i) {
          ok := false;
          break;
        }
        saved := saved + [records[i]];
        i := i + 1;
      }
      assert i == FirstRejected(accept, |records|);
      if ok {
        attendance := map[];
      }
    }
  }
}
