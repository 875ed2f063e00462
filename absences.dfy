/** The student's absence list (`Absences`): the total, excused and
    unexcused figures over the delivered list, and the search over subject
    and status. */
module Absences {
  import opened Common
  import opened Types

  function HasStatus(s: AbsenceStatus): Absence -> bool
  {
    (a: Absence) => a.status == s
  }

  /** `absences.filter(a => a.status === 'excused').length`. */
  function ExcusedCount(xs: seq<Absence>): nat
  {
    Count(xs, HasStatus(Excused))
  }

  /** `absences.filter(a => a.status === 'unexcused').length`. */
  function UnexcusedCount(xs: seq<Absence>): nat
  {
    Count(xs, HasStatus(Unexcused))
  }

  datatype Stats = Stats(total: nat, excused: nat, unexcused: nat)

  /** The three figures in the header, all over the full list. */
  function AbsenceStats(xs: seq<Absence>): Stats
  {
    Stats(|xs|, ExcusedCount(xs), UnexcusedCount(xs))
  }

  function StatusOf(a: Absence): AbsenceStatus
  {
    a.status
  }

  /** Each figure counts exactly the entries of its status (how often the
      status occurs in the list of statuses), and since a status is one of
      the two, the excused and unexcused figures add up to the total. */
  lemma AbsenceStatsSpec(xs: seq<Absence>)
    ensures var st := AbsenceStats(xs);
      && st.excused == multiset(Mapped(xs, StatusOf))[Excused]
      && st.unexcused == multiset(Mapped(xs, StatusOf))[Unexcused]
      && st.excused + st.unexcused == st.total == |xs|
      && (forall a :: a in Filter(xs, HasStatus(Excused)) <==> a in xs && a.status == Excused)
      && (forall a :: a in Filter(xs, HasStatus(Unexcused)) <==> a in xs && a.status == Unexcused)
  {
    CountPartition(xs, HasStatus(Excused), HasStatus(Unexcused));
    CountAsMultiplicity(xs, HasStatus(Excused), StatusOf, Excused);
    CountAsMultiplicity(xs, HasStatus(Unexcused), StatusOf, Unexcused);
    FilterMembership(xs, HasStatus(Excused));
    FilterMembership(xs, HasStatus(Unexcused));
  }

  /** The subject to search in; a record without one has none to match. */
  function SubjectText(a: Absence): string
  {
    if a.subject.Some? then a.subject.value else ""
  }

  function MatchesTerm(term: string): Absence -> bool
  {
    (a: Absence) => ContainsIgnoreCase(SubjectText(a), term) || ContainsIgnoreCase(StatusName(a.status), term)
  }

  /** `filteredAbsences`, with `absence.subject` read as empty when the
      record has none. */
  function FilteredAbsences(xs: seq<Absence>, term: string): seq<Absence>
  {
    Filter(xs, MatchesTerm(term))
  }

  /** The search keeps exactly the absences whose subject or status
      contains the term, ignoring case, every copy of each, in their
      original order; an empty term keeps them all. */
  lemma FilteredAbsencesSpec(xs: seq<Absence>, term: string)
    ensures forall a :: a in FilteredAbsences(xs, term) <==>
      a in xs && (ContainsIgnoreCase(SubjectText(a), term) || ContainsIgnoreCase(StatusName(a.status), term))
    ensures forall a :: multiset(FilteredAbsences(xs, term))[a] ==
              if MatchesTerm(term)(a) then multiset(xs)[a] else 0
    ensures IsSubsequence(FilteredAbsences(xs, term), xs)
    ensures term == "" ==> FilteredAbsences(xs, term) == xs
  {
    FilterMembership(xs, MatchesTerm(term));
    FilterIsSubsequence(xs, MatchesTerm(term));
    FilterMultiset(xs, MatchesTerm(term));
    if term == "" {
      forall i | 0 <= i < |xs| ensures MatchesTerm(term)(xs[i]) {
        ContainsIgnoreCaseEmpty(SubjectText(xs[i]));
      }
      FilterKeepsAll(xs, MatchesTerm(term));
    }
  }

  /** The search as the page writes it: `absence.subject.toLowerCase()` is
      evaluated for every absence, in order, and throws (`None`) on the
      first one without a subject. */
  function FilteredAbsencesAsWritten(xs: seq<Absence>, term: string): Option<seq<Absence>>
  {
    if xs == [] then Some([])
    else if xs[0].subject.None? then None
    else
      match FilteredAbsencesAsWritten(xs[1..], term)
      case None => None
      case Some(rest) => Some((if MatchesTerm(term)(xs[0]) then [xs[0]] else []) + rest)
  }

  /** The page's search fails exactly when some absence has no subject, and
      otherwise gives the same list as the corrected search. */
  lemma {:induction false} AsWrittenFailsOnMissingSubject(xs: seq<Absence>, term: string)
    ensures FilteredAbsencesAsWritten(xs, term).None? <==> exists i :: 0 <= i < |xs| && xs[i].subject.None?
    ensures FilteredAbsencesAsWritten(xs, term).Some? ==> FilteredAbsencesAsWritten(xs, term).value == FilteredAbsences(xs, term)
  {
    if xs != [] {
      AsWrittenFailsOnMissingSubject(xs[1..], term);
      if exists i :: 0 <= i < |xs[1..]| && xs[1..][i].subject.None? {
        var i :| 0 <= i < |xs[1..]| && xs[1..][i].subject.None?;
        assert xs[i + 1].subject.None?;
      }
      if exists i :: 0 <= i < |xs| && xs[i].subject.None? {
        var i :| 0 <= i < |xs| && xs[i].subject.None?;
        if i > 0 {
          assert xs[1..][i - 1].subject.None?;
        }
      }
    }
  }

  /** An absence recorded by the attendance sheet has no subject: with it
      in the list, the page's search fails even for the empty term, while
      the corrected search lists it. */
  lemma RecordedAbsenceBreaksSearch(a: Absence)
    requires a.subject.None?
    ensures FilteredAbsencesAsWritten([a], "") == None
    ensures FilteredAbsences([a], "") == [a]
  {
    FilteredAbsencesSpec([a], "");
  }
  /** The term `excused` is a substring of `unexcused`, so it keeps every
      absence whatever its status. */
  lemma ExcusedTermMatchesBoth(xs: seq<Absence>)
    ensures FilteredAbsences(xs, "excused") == xs
  {
    assert OccursAt(Lower(StatusName(Excused)), Lower("excused"), 0);
    assert OccursAt(Lower(StatusName(Unexcused)), Lower("excused"), 2);
    forall i | 0 <= i < |xs| ensures MatchesTerm("excused")(xs[i]) {
    }
    FilterKeepsAll(xs, MatchesTerm("excused"));
  }
}
