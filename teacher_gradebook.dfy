/** The teacher's gradebook (`TeacherGradebook`): the grade query of the
    selected class and subject, the grade-entry form with its checks and
    its write, the per-student average, the first three grades shown per
    student and the class average. */
module TeacherGradebook {
  import opened Common
  import opened Documents
  import opened Types

  datatype Student = Student(id: string, name: string, className: string)

  // ---------------------------------------------------------------------
  // The query
  // ---------------------------------------------------------------------

  /** The constraints passed to the binding: class and subject once both
      are selected, none otherwise. */
  function GradeQuery(selectedClass: string, selectedSubject: string): (q: seq<Constraint>)
    ensures q == [] <==> selectedClass == "" || selectedSubject == ""
    ensures q != [] ==> q == [WhereEq("class", Str(selectedClass)), WhereEq("subject", Str(selectedSubject))]
  {
    if selectedClass != "" && selectedSubject != "" then
      [WhereEq("class", Str(selectedClass)), WhereEq("subject", Str(selectedSubject))]
    else []
  }

  // ---------------------------------------------------------------------
  // Saving a grade
  // ---------------------------------------------------------------------

  datatype SaveError = MissingInput | OutOfRange

  /** The two guards of `handleSaveGrade`: a student must be selected and
      the grade field non-empty; the parsed value must lie in [2, 6]. */
  function ValidateGrade(student: Option<Student>, raw: string, parsed: real): (r: Result<real, SaveError>)
    ensures r == Err(MissingInput) <==> student.None? || raw == ""
    ensures r == Err(OutOfRange) <==> student.Some? && raw != "" && (parsed < 2.0 || parsed > 6.0)
    ensures r.Ok? <==> student.Some? && raw != "" && 2.0 <= parsed <= 6.0
    ensures r.Ok? ==> r.value == parsed
  {
    if student.None? || raw == "" then Err(MissingInput)
    else if parsed < 2.0 || parsed > 6.0 then Err(OutOfRange)
    else Ok(parsed)
  }

  /** The object passed to `addGrade`. */
  datatype GradeRecord = GradeRecord(
    studentId: string,
    studentName: string,
    className: string,
    subject: string,
    value: real,
    comment: string,
    date: string,
    teacherId: Option<string>)

  datatype SaveOutcome = Rejected(reason: SaveError) | SaveFailed(record: GradeRecord) | Saved(record: GradeRecord)

  /** The state fields of the page that the form reads and resets. */
  class GradebookForm {
    var selectedClass: string
    var selectedSubject: string
    var selectedStudent: Option<Student>
    var gradeValue: string
    var gradeComment: string

    constructor ()
      ensures selectedClass == "" && selectedSubject == "" && selectedStudent == None
      ensures gradeValue == "" && gradeComment == ""
    {
      selectedClass := "";
      selectedSubject := "";
      selectedStudent := None;
      gradeValue := "";
      gradeComment := "";
    }

    /** `handleSaveGrade`. `parsed` is `parseFloat(gradeValue)`, `nowIso`
        the current time and `accept` the store's answer to the write.
        A rejected input writes nothing and changes nothing; a write that
        fails keeps the form as it is; a write that succeeds clears the
        student, the value and the comment. The selection of class and
        subject is never changed. */
    method SaveGrade(parsed: real, nowIso: string, teacherId: Option<string>, accept: bool) returns (outcome: SaveOutcome)
      modifies this
      ensures selectedClass == old(selectedClass) && selectedSubject == old(selectedSubject)
      ensures match ValidateGrade(old(selectedStudent), old(gradeValue), parsed)
        case Err(e) =>
          && outcome == Rejected(e)
          && selectedStudent == old(selectedStudent) && gradeValue == old(gradeValue) && gradeComment == old(gradeComment)
        case Ok(v) =>
          var record := GradeRecord(old(selectedStudent).value.id, old(selectedStudent).value.name,
                                    selectedClass, selectedSubject, v, old(gradeComment), nowIso, teacherId);
          && outcome == (if accept then Saved(record) else SaveFailed(record))
          && (accept ==> selectedStudent == None && gradeValue == "" && gradeComment == "")
          && (!accept ==> selectedStudent == old(selectedStudent) && gradeValue == old(gradeValue)
                          && gradeComment == old(gradeComment))
    {
      var checked := ValidateGrade(selectedStudent, gradeValue, parsed);
      if checked.Err? {
        return Rejected(checked.error);
      }
      var student := selectedStudent.value;
      var record := GradeRecord(student.id, student.name, selectedClass, selectedSubject,
                                checked.value, gradeComment, nowIso, teacherId);
      if !accept {
        return SaveFailed(record);
      }
      selectedStudent := None;
      gradeValue := "";
      gradeComment := "";
      outcome := Saved(record);
    }
  }

  // ---------------------------------------------------------------------
  // Derived views
  // ---------------------------------------------------------------------

  function OfStudent(studentId: string): Grade -> bool
  {
    (g: Grade) => g.studentId == studentId
  }

  /** `grades.filter(g => g.studentId === studentId)`. */
  function StudentGrades(gs: seq<Grade>, studentId: string): seq<Grade>
  {
    Filter(gs, OfStudent(studentId))
  }

  /** `getStudentAverage`: null without grades, otherwise their mean. */
  function StudentAverage(gs: seq<Grade>, studentId: string): Option<real>
  {
    var own := StudentGrades(gs, studentId);
    if |own| == 0 then None else Some(Mean(Values(own)))
  }

  /** The average is null exactly when the student has no grade; otherwise
      it is the mean of the student's values and lies between their
      lowest and highest. */
  lemma StudentAverageSpec(gs: seq<Grade>, studentId: string)
    ensures StudentAverage(gs, studentId).None? <==> forall i :: 0 <= i < |gs| ==> gs[i].studentId != studentId
    ensures StudentAverage(gs, studentId).Some? ==>
      var vs := Values(StudentGrades(gs, studentId));
      |vs| > 0 && StudentAverage(gs, studentId).value == Mean(vs) && Min(vs) <= Mean(vs) <= Max(vs)
  {
    var own := StudentGrades(gs, studentId);
    FilterMembership(gs, OfStudent(studentId));
    if |own| == 0 {
      forall i | 0 <= i < |gs| ensures gs[i].studentId != studentId {
        assert gs[i] !in own;
      }
    } else {
      assert own[0] in gs;
      MeanBetweenMinMax(Values(own));
    }
  }

  /** The grades shown in a student's row. */
  function ShownGrades(gs: seq<Grade>, studentId: string): seq<Grade>
  {
    Take(StudentGrades(gs, studentId), 3)
  }

  /** The `+n more` label: present only beyond three grades. */
  function MoreLabel(gs: seq<Grade>, studentId: string): Option<nat>
  {
    var n := |StudentGrades(gs, studentId)|;
    if n > 3 then Some(n - 3) else None
  }

  /** The student's first three grades are shown, or all of them when
      there are fewer; the label appears exactly when some are hidden and
      reads the number of grades minus three. */
  lemma ShownGradesSpec(gs: seq<Grade>, studentId: string)
    ensures var own, shown, more := StudentGrades(gs, studentId), ShownGrades(gs, studentId), MoreLabel(gs, studentId);
      && |shown| == (if |own| < 3 then |own| else 3)
      && shown == own[..|shown|]
      && more == (if |own| > 3 then Some(|own| - 3) else None)
      && (more.Some? <==> |shown| < |own|)
      && |shown| + (if more.Some? then more.value else 0) == |own|
      && (forall g :: g in shown ==> g in gs && g.studentId == studentId)
  {
    FilterMembership(gs, OfStudent(studentId));
  }

  /** `(sum / grades.length || 0)`: the mean of all values, 0 when empty. */
  function ClassAverage(gs: seq<Grade>): real
  {
    if |gs| == 0 then 0.0 else Mean(Values(gs))
  }

  /** The class average is 0 for no grades and otherwise between the
      lowest and the highest grade; a class of one student's grades has
      that student's average. */
  lemma ClassAverageSpec(gs: seq<Grade>, studentId: string)
    ensures gs == [] ==> ClassAverage(gs) == 0.0
    ensures gs != [] ==> Min(Values(gs)) <= ClassAverage(gs) <= Max(Values(gs))
    ensures gs != [] && (forall i :: 0 <= i < |gs| ==> gs[i].studentId == studentId) ==>
      StudentAverage(gs, studentId) == Some(ClassAverage(gs))
  {
    if gs != [] {
      MeanBetweenMinMax(Values(gs));
      if forall i :: 0 <= i < |gs| ==> gs[i].studentId == studentId {
        FilterKeepsAll(gs, OfStudent(studentId));
      }
    }
  }
}
