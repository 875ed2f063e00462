/** The dashboard (`Dashboard`): four live bindings and the figures derived
    from them: the overall average, the number of unexcused absences, the
    upcoming homework, the three most recent announcements and the
    combined loading flag. */
module Dashboard {
  import opened Common
  import opened Documents
  import opened Types
  import LiveCollection
  import Absences
  import Grades

  /** `user ? [where('studentId', '==', user.uid)] : []`, the query of the
      grade and absence bindings. */
  function StudentQuery(user: Option<string>): (q: seq<Constraint>)
    ensures q == [] <==> user.None?
    ensures user.Some? ==> q == [WhereEq("studentId", Str(user.value))]
  {
    match user
    case None => []
    case Some(uid) => [WhereEq("studentId", Str(uid))]
  }

  // ---------------------------------------------------------------------
  // Averages and counts
  // ---------------------------------------------------------------------

  /** `overallAverage`: `—` (here `None`) without grades, otherwise the
      mean of all values. */
  function OverallAverage(gs: seq<Grade>): Option<real>
  {
    if |gs| == 0 then None else Some(Mean(Values(gs)))
  }

  /** The average is missing exactly when there are no grades, and lies
      between the lowest and the highest grade otherwise. */
  lemma OverallAverageSpec(gs: seq<Grade>)
    ensures OverallAverage(gs).None? <==> gs == []
    ensures gs != [] ==> Min(Values(gs)) <= OverallAverage(gs).value <= Max(Values(gs))
  {
    if gs != [] {
      MeanBetweenMinMax(Values(gs));
    }
  }

  /** When every grade is of one subject, the dashboard's mean over all
      grades agrees with the grade page's mean of subject means. */
  lemma AgreesWithGradesPageForOneSubject(gs: seq<Grade>, subject: string)
    requires gs != []
    requires forall i :: 0 <= i < |gs| ==> gs[i].subject == subject
    ensures OverallAverage(gs) == Some(Grades.OverallAverage(gs))
  {
    Grades.KeysOfOneSubject(gs, subject);
    FilterKeepsAll(gs, Grades.HasSubject(subject));
    assert Grades.OfSubject(gs, subject) == gs;
    var v := Mean(Values(gs));
    var r := Grades.SubjectAverages(gs);
    assert |r| == 1 && r[0].average == v;
    assert Grades.Averages(r) == [v];
    assert Sum([v]) == v + Sum([]);
  }

  /** `unexcusedAbsences`: the absence page's unexcused figure. */
  function UnexcusedAbsences(xs: seq<Absence>): nat
  {
    Absences.UnexcusedCount(xs)
  }

  /** The dashboard's figure is the absence page's unexcused count: the
      absences that are not excused, so it and the excused count add up to
      the total, and it is 0 exactly when every absence is excused. */
  lemma UnexcusedAbsencesSpec(xs: seq<Absence>)
    ensures UnexcusedAbsences(xs) == Absences.AbsenceStats(xs).unexcused
    ensures UnexcusedAbsences(xs) + Absences.ExcusedCount(xs) == |xs|
    ensures UnexcusedAbsences(xs) == 0 <==> forall i :: 0 <= i < |xs| ==> xs[i].status == Excused
  {
    Absences.AbsenceStatsSpec(xs);
    if UnexcusedAbsences(xs) == 0 {
      forall i | 0 <= i < |xs| ensures xs[i].status == Excused {
        assert xs[i] in xs;
      }
    } else {
      var a := Filter(xs, Absences.HasStatus(Unexcused))[0];
      assert a in xs && a.status == Unexcused;
    }
  }

  // ---------------------------------------------------------------------
  // Upcoming homework
  // ---------------------------------------------------------------------

  function DueFrom(nowMs: int): Homework -> bool
  {
    (h: Homework) => h.deadline >= nowMs
  }

  /** `homework.filter(h => new Date(h.deadline) >= now)`. */
  function UpcomingHomework(hw: seq<Homework>, nowMs: int): seq<Homework>
  {
    Filter(hw, DueFrom(nowMs))
  }

  /** `upcomingHomework.slice(0, 5)`: the deadlines listed. */
  function ListedDeadlines(hw: seq<Homework>, nowMs: int): seq<Homework>
  {
    Take(UpcomingHomework(hw, nowMs), 5)
  }

  /** Upcoming homework is exactly the items due now or later (a deadline
      equal to now counts), every copy of each, in list order. */
  lemma UpcomingHomeworkSpec(hw: seq<Homework>, nowMs: int)
    ensures forall h :: h in UpcomingHomework(hw, nowMs) <==> h in hw && h.deadline >= nowMs
    ensures forall h :: multiset(UpcomingHomework(hw, nowMs))[h] == if h.deadline >= nowMs then multiset(hw)[h] else 0
    ensures IsSubsequence(UpcomingHomework(hw, nowMs), hw)
  {
    FilterMembership(hw, DueFrom(nowMs));
    FilterIsSubsequence(hw, DueFrom(nowMs));
    FilterMultiset(hw, DueFrom(nowMs));
  }

  /** At most five deadlines are listed, the first upcoming ones, and all
      of them when there are no more than five. */
  lemma ListedDeadlinesSpec(hw: seq<Homework>, nowMs: int)
    ensures var listed, upcoming := ListedDeadlines(hw, nowMs), UpcomingHomework(hw, nowMs);
      && |listed| == (if |upcoming| < 5 then |upcoming| else 5)
      && listed == upcoming[..|listed|]
      && (forall h :: h in listed ==> h in hw && h.deadline >= nowMs)
  {
    UpcomingHomeworkSpec(hw, nowMs);
  }

  // ---------------------------------------------------------------------
  // Recent announcements
  // ---------------------------------------------------------------------

  predicate NewestFirst(xs: seq<Announcement>)
  {
    forall i, j :: 0 <= i < j < |xs| ==> xs[j].createdAt <= xs[i].createdAt
  }

  /** Inserts `x` after every entry at least as new, so entries with equal
      times keep their order (the sort is stable). */
  function InsertByDate(sorted: seq<Announcement>, x: Announcement): seq<Announcement>
  {
    if sorted == [] then [x]
    else if sorted[0].createdAt >= x.createdAt then [sorted[0]] + InsertByDate(sorted[1..], x)
    else [x] + sorted
  }

  /** Inserting keeps every bound that holds for the list and for `x`. */
  lemma {:induction false} InsertByDateBounded(sorted: seq<Announcement>, x: Announcement, t: int)
    requires forall k :: 0 <= k < |sorted| ==> sorted[k].createdAt <= t
    requires x.createdAt <= t
    ensures forall k :: 0 <= k < |InsertByDate(sorted, x)| ==> InsertByDate(sorted, x)[k].createdAt <= t
  {
    if sorted != [] && sorted[0].createdAt >= x.createdAt {
      InsertByDateBounded(sorted[1..], x, t);
    }
  }

  lemma {:induction false} InsertByDateOrdered(sorted: seq<Announcement>, x: Announcement)
    requires NewestFirst(sorted)
    ensures NewestFirst(InsertByDate(sorted, x))
  {
    if sorted != [] && sorted[0].createdAt >= x.createdAt {
      var tail := InsertByDate(sorted[1..], x);
      InsertByDateOrdered(sorted[1..], x);
      InsertByDateBounded(sorted[1..], x, sorted[0].createdAt);
      var r := [sorted[0]] + tail;
      forall i, j | 0 <= i < j < |r| ensures r[j].createdAt <= r[i].createdAt {
        assert r[j] == tail[j - 1];
        if i > 0 {
          assert r[i] == tail[i - 1];
        }
      }
    }
  }

  lemma {:induction false} InsertByDatePermutes(sorted: seq<Announcement>, x: Announcement)
    ensures multiset(InsertByDate(sorted, x)) == multiset(sorted) + multiset{x}
  {
    if sorted != [] && sorted[0].createdAt >= x.createdAt {
      InsertByDatePermutes(sorted[1..], x);
      assert sorted == [sorted[0]] + sorted[1..];
    }
  }

  /** `[...announcements].sort((a, b) => b.createdAt - a.createdAt)`: a
      sorted copy, the list itself stays as it is. */
  function SortByNewest(xs: seq<Announcement>): seq<Announcement>
    decreases |xs|
  {
    if xs == [] then [] else InsertByDate(SortByNewest(xs[..|xs| - 1]), xs[|xs| - 1])
  }

  /** The copy is ordered newest first and holds exactly the same entries. */
  lemma {:induction false} SortByNewestSpec(xs: seq<Announcement>)
    ensures NewestFirst(SortByNewest(xs))
    ensures multiset(SortByNewest(xs)) == multiset(xs)
    decreases |xs|
  {
    if xs != [] {
      var init := xs[..|xs| - 1];
      SortByNewestSpec(init);
      InsertByDateOrdered(SortByNewest(init), xs[|xs| - 1]);
      InsertByDatePermutes(SortByNewest(init), xs[|xs| - 1]);
      assert xs == init + [xs[|xs| - 1]];
    }
  }

  /** `recentAnnouncements`: the first three of the sorted copy. */
  function RecentAnnouncements(xs: seq<Announcement>): seq<Announcement>
  {
    Take(SortByNewest(xs), 3)
  }

  /** At most three announcements, newest first, all taken from the input;
      three when there are at least three; and every announcement left out
      is no newer than any of those shown. */
  lemma RecentAnnouncementsSpec(xs: seq<Announcement>)
    ensures var r := RecentAnnouncements(xs);
      && |r| == (if |xs| < 3 then |xs| else 3)
      && NewestFirst(r)
      && multiset(r) <= multiset(xs)
      && forall y, i :: y in xs && 0 <= i < |r| ==> y in r || y.createdAt <= r[i].createdAt
  {
    var s := SortByNewest(xs);
    var r := RecentAnnouncements(xs);
    SortByNewestSpec(xs);
    assert |s| == |xs| by {
      assert |multiset(s)| == |multiset(xs)|;
    }
    assert s == r + s[|r|..];
    forall y, i | y in xs && 0 <= i < |r| ensures y in r || y.createdAt <= r[i].createdAt {
      assert y in multiset(s);
      var j :| 0 <= j < |s| && s[j] == y;
      if j >= |r| {
        assert s[i] == r[i];
      }
    }
  }

  // ---------------------------------------------------------------------
  // Loading
  // ---------------------------------------------------------------------

  /** `gradesLoading || absencesLoading || homeworkLoading || announcementsLoading`. */
  function IsLoading(grades: LiveCollection.BindingState, absences: LiveCollection.BindingState,
                     homework: LiveCollection.BindingState, announcements: LiveCollection.BindingState): bool
  {
    grades.loading || absences.loading || homework.loading || announcements.loading
  }

  /** Starting from the initial binding state, the dashboard shows its
      skeleton exactly until each of the four bindings has had a delivery,
      a snapshot or an error. */
  lemma LoadingUntilAllDelivered(g: seq<LiveCollection.Delivery>, a: seq<LiveCollection.Delivery>,
                                 h: seq<LiveCollection.Delivery>, n: seq<LiveCollection.Delivery>)
    ensures IsLoading(LiveCollection.Run(LiveCollection.Initial, g), LiveCollection.Run(LiveCollection.Initial, a),
                      LiveCollection.Run(LiveCollection.Initial, h), LiveCollection.Run(LiveCollection.Initial, n))
            <==> g == [] || a == [] || h == [] || n == []
  {
    LiveCollection.RunLoading(LiveCollection.Initial, g);
    LiveCollection.RunLoading(LiveCollection.Initial, a);
    LiveCollection.RunLoading(LiveCollection.Initial, h);
    LiveCollection.RunLoading(LiveCollection.Initial, n);
  }
}
