/** The teacher's class list (`ClassList`): the class and text filter over
    the roster, the colour of a student's average and the display of the
    absence count. */
module ClassList {
  import opened Common
  import Grades

  datatype ClassStudent = ClassStudent(
    id: string,
    name: string,
    email: string,
    className: string,
    averageGrade: Option<real>,
    absenceCount: Option<int>)

  /** The filter of `filteredStudents`: the selected class, if any, and the
      search term in the name or the e-mail address. */
  function Passes(selectedClass: string, term: string): ClassStudent -> bool
  {
    (s: ClassStudent) =>
      && (selectedClass == "" || s.className == selectedClass)
      && (ContainsIgnoreCase(s.name, term) || ContainsIgnoreCase(s.email, term))
  }

  function FilteredStudents(students: seq<ClassStudent>, selectedClass: string, term: string): seq<ClassStudent>
  {
    Filter(students, Passes(selectedClass, term))
  }

  /** A student is listed exactly when in the selected class (any class
      when none is selected) and matching the term in name or e-mail,
      ignoring case, with every copy of a listed entry kept; the order is
      kept; with no class and an empty term
      every student is listed. */
  lemma FilteredStudentsSpec(students: seq<ClassStudent>, selectedClass: string, term: string)
    ensures forall s :: s in FilteredStudents(students, selectedClass, term) <==>
      && s in students
      && (selectedClass == "" || s.className == selectedClass)
      && (ContainsIgnoreCase(s.name, term) || ContainsIgnoreCase(s.email, term))
    ensures forall s :: multiset(FilteredStudents(students, selectedClass, term))[s] ==
              if Passes(selectedClass, term)(s) then multiset(students)[s] else 0
    ensures IsSubsequence(FilteredStudents(students, selectedClass, term), students)
    ensures selectedClass == "" && term == "" ==> FilteredStudents(students, selectedClass, term) == students
  {
    FilterMembership(students, Passes(selectedClass, term));
    FilterIsSubsequence(students, Passes(selectedClass, term));
    FilterMultiset(students, Passes(selectedClass, term));
    if selectedClass == "" && term == "" {
      forall i | 0 <= i < |students| ensures Passes(selectedClass, term)(students[i]) {
        ContainsIgnoreCaseEmpty(students[i].name);
      }
      FilterKeepsAll(students, Passes(selectedClass, term));
    }
  }

  datatype Color = Gray | Banded(band: Grades.Band)

  /** `getGradeColor`: `!grade` holds for a missing average and for 0. */
  function GradeColor(avg: Option<real>): Color
  {
    if avg.None? || avg.value == 0.0 then Gray else Banded(Grades.GradeBand(avg.value))
  }

  /** Gray exactly for a missing or zero average; otherwise the grade
      page's band of that value. */
  lemma GradeColorSpec(avg: Option<real>)
    ensures GradeColor(avg) == Gray <==> avg.None? || avg.value == 0.0
    ensures avg.Some? && avg.value != 0.0 ==>
      && GradeColor(avg) == Banded(Grades.GradeBand(avg.value))
      && (GradeColor(avg) == Banded(Grades.Green) <==> avg.value >= 5.5)
      && (GradeColor(avg) == Banded(Grades.Red) <==> avg.value < 4.0)
  {
  }

  /** `student.absenceCount || 0`. */
  function AbsenceShown(count: Option<int>): int
  {
    if count.None? then 0 else count.value
  }

  /** `student.absenceCount && student.absenceCount > 3`. */
  predicate AbsenceHighlighted(count: Option<int>)
  {
    count.Some? && count.value != 0 && count.value > 3
  }

  /** A missing count shows as 0, and the count is highlighted exactly
      when the shown number exceeds 3. */
  lemma AbsenceDisplaySpec(count: Option<int>)
    ensures count.None? ==> AbsenceShown(count) == 0
    ensures AbsenceHighlighted(count) <==> AbsenceShown(count) > 3
  {
  }
}
