/** The student's grade overview (`Grades`): grades grouped by subject,
    per-subject averages and counts, the overall average, the subject
    search and the colour band of a grade. */
module Grades {
  import opened Common
  import opened Types

  // ---------------------------------------------------------------------
  // Colour bands
  // ---------------------------------------------------------------------

  datatype Band = Red | Yellow | Green

  /** `getGradeColor`: green from 5.5, yellow from 4, red below. */
  function GradeBand(v: real): (b: Band)
    ensures b == Green <==> v >= 5.5
    ensures b == Red <==> v < 4.0
  {
    if v >= 5.5 then Green else if v >= 4.0 then Yellow else Red
  }

  function Rank(b: Band): nat
  {
    match b
    case Red => 0
    case Yellow => 1
    case Green => 2
  }

  /** A higher grade never gets a lower band. */
  lemma GradeBandMonotone(a: real, b: real)
    requires a <= b
    ensures Rank(GradeBand(a)) <= Rank(GradeBand(b))
  {
  }

  // ---------------------------------------------------------------------
  // Grouping by subject
  // ---------------------------------------------------------------------

  function HasSubject(subject: string): Grade -> bool
  {
    (g: Grade) => g.subject == subject
  }

  /** The group of one subject: its grades in their original order. */
  function OfSubject(gs: seq<Grade>, subject: string): seq<Grade>
  {
    Filter(gs, HasSubject(subject))
  }

  /** The subjects in the order their first grade appears: the order in
      which the accumulator object's keys are created. */
  function Subjects(gs: seq<Grade>): (ss: seq<string>)
    ensures NoDuplicates(ss)
    ensures forall s :: s in ss <==> exists i :: 0 <= i < |gs| && gs[i].subject == s
    decreases |gs|
  {
    if gs == [] then []
    else
      var init := gs[..|gs| - 1];
      var p := Subjects(init);
      assert forall i :: 0 <= i < |init| ==> init[i] == gs[i];
      if gs[|gs| - 1].subject in p then p else p + [gs[|gs| - 1].subject]
  }

  /** Every grade of subject `b` comes after some grade of subject `a`:
      `a` appears first. */
  predicate AppearsBefore(gs: seq<Grade>, a: string, b: string)
  {
    forall l :: 0 <= l < |gs| && gs[l].subject == b ==> exists k :: 0 <= k < l && gs[k].subject == a
  }

  /** The keys are created in the order of first appearance. */
  lemma {:induction false} SubjectsInFirstAppearanceOrder(gs: seq<Grade>)
    ensures forall i, j :: 0 <= i < j < |Subjects(gs)| ==> AppearsBefore(gs, Subjects(gs)[i], Subjects(gs)[j])
    decreases |gs|
  {
    if gs != [] {
      var init, g := gs[..|gs| - 1], gs[|gs| - 1];
      var p, ss := Subjects(init), Subjects(gs);
      SubjectsInFirstAppearanceOrder(init);
      assert forall k :: 0 <= k < |init| ==> init[k] == gs[k];
      assert forall i :: 0 <= i < |p| ==> ss[i] == p[i];
      forall i, j | 0 <= i < j < |ss| ensures AppearsBefore(gs, ss[i], ss[j]) {
        assert ss[i] in p;
        var k0 :| 0 <= k0 < |init| && init[k0].subject == ss[i];
        forall l | 0 <= l < |gs| && gs[l].subject == ss[j] ensures exists k :: 0 <= k < l && gs[k].subject == ss[i] {
          if j < |p| && l < |init| {
            assert AppearsBefore(init, p[i], p[j]);
            assert init[l].subject == p[j];
            var k :| 0 <= k < l && init[k].subject == p[i];
            assert gs[k].subject == ss[i];
          } else {
            assert l == |init|;
            assert gs[k0].subject == ss[i];
          }
        }
      }
    }
  }

  /** Grades of a single subject have that subject as their only key. */
  lemma {:induction false} SubjectsOfOneSubject(gs: seq<Grade>, subject: string)
    requires gs != []
    requires forall i :: 0 <= i < |gs| ==> gs[i].subject == subject
    ensures Subjects(gs) == [subject]
    decreases |gs|
  {
    var init := gs[..|gs| - 1];
    if init != [] {
      SubjectsOfOneSubject(init, subject);
    }
  }

  /** ... and the single key `Object.entries` lists. */
  lemma KeysOfOneSubject(gs: seq<Grade>, subject: string)
    requires gs != []
    requires forall i :: 0 <= i < |gs| ==> gs[i].subject == subject
    ensures Keys(gs) == [subject]
  {
    SubjectsOfOneSubject(gs, subject);
    EntriesOrderSpec([subject]);
    assert subject in Keys(gs);
  }

  /** `Object.entries(gradesBySubject)`: the subjects in the accumulator's
      own-key order, array-index subjects such as `1` first. */
  function Keys(gs: seq<Grade>): seq<string>
  {
    EntriesOrder(Subjects(gs))
  }

  /** Every subject is listed once; subjects that are array indices come
      first, in ascending numeric order; the other subjects follow in the
      order their first grade appears; and with no array-index subject the
      order is simply that of first appearance. */
  lemma KeysSpec(gs: seq<Grade>)
    ensures NoDuplicates(Keys(gs))
    ensures forall s :: s in Keys(gs) <==> exists i :: 0 <= i < |gs| && gs[i].subject == s
    ensures forall i, j :: 0 <= i < j < |Keys(gs)| && IsArrayIndex(Keys(gs)[j]) ==>
              IsArrayIndex(Keys(gs)[i]) && DigitsValue(Keys(gs)[i]) <= DigitsValue(Keys(gs)[j])
    ensures Filter(Keys(gs), NotArrayIndex) == Filter(Subjects(gs), NotArrayIndex)
    ensures (forall i :: 0 <= i < |gs| ==> NotArrayIndex(gs[i].subject)) ==> Keys(gs) == Subjects(gs)
  {
    EntriesOrderSpec(Subjects(gs));
    if forall i :: 0 <= i < |gs| ==> NotArrayIndex(gs[i].subject) {
      var ss := Subjects(gs);
      forall k | 0 <= k < |ss| ensures NotArrayIndex(ss[k]) {
        assert ss[k] in ss;
      }
    }
  }

  /** Grades `b` then `1`: the subject `1` is an array index, so it is
      listed first although its grade comes second. */
  lemma IndexSubjectListedFirst(b: Grade, one: Grade)
    requires b.subject == "b" && one.subject == "1"
    ensures Subjects([b, one]) == ["b", "1"]
    ensures Keys([b, one]) == ["1", "b"]
  {
    assert [b, one][..1] == [b];
    assert [b][..0] == [];
    assert Subjects([b]) == ["b"];
    assert "1" != "b";
    assert DigitsValue("1") == 1 by {
      assert "1"[..0] == [];
    }
    assert IsArrayIndex("1");
    assert !IsArrayIndex("b");
    assert Filter(["b", "1"], IsArrayIndex) == ["1"];
    assert Filter(["b", "1"], NotArrayIndex) == ["b"];
    assert SortAscending(["1"]) == ["1"] by {
      assert ["1"][..0] == [];
    }
  }

  /** Appending a grade appends it to its own group only. */
  lemma OfSubjectSnoc(init: seq<Grade>, g: Grade, s: string)
    ensures OfSubject(init + [g], s) == OfSubject(init, s) + (if g.subject == s then [g] else [])
  {
    FilterConcat(init, [g], HasSubject(s));
    assert Filter([g], HasSubject(s)) == (if g.subject == s then [g] else []) + Filter([], HasSubject(s));
  }

  /** Every grade lies in exactly one group, the one keyed by its subject,
      and every group keeps the original relative order. */
  lemma GroupsPartition(gs: seq<Grade>)
    ensures forall i :: 0 <= i < |gs| ==> gs[i] in OfSubject(gs, gs[i].subject)
    ensures forall s, g :: g in OfSubject(gs, s) ==> g in gs && g.subject == s
    ensures forall s :: IsSubsequence(OfSubject(gs, s), gs)
  {
    forall s
      ensures forall g :: g in OfSubject(gs, s) <==> g in gs && g.subject == s
      ensures IsSubsequence(OfSubject(gs, s), gs)
    {
      FilterMembership(gs, HasSubject(s));
      FilterIsSubsequence(gs, HasSubject(s));
    }
  }

  /** A listed subject has at least one grade. */
  lemma SubjectsHaveGrades(gs: seq<Grade>)
    ensures forall s :: s in Keys(gs) ==> |OfSubject(gs, s)| > 0
  {
    KeysSpec(gs);
    forall s | s in Keys(gs) ensures |OfSubject(gs, s)| > 0 {
      var i :| 0 <= i < |gs| && gs[i].subject == s;
      FilterMembership(gs, HasSubject(s));
      assert gs[i] in OfSubject(gs, s);
    }
  }

  /** A subject without a listed grade has an empty group. */
  lemma UnlistedHasNoGrades(gs: seq<Grade>, s: string)
    requires s !in Subjects(gs)
    ensures OfSubject(gs, s) == []
  {
    FilterKeepsNone(gs, HasSubject(s));
  }

  /** What one more grade does to the key order and to the groups. */
  lemma GroupStep(gs: seq<Grade>, i: nat)
    requires i < |gs|
    ensures Subjects(gs[..i + 1]) == if gs[i].subject in Subjects(gs[..i]) then Subjects(gs[..i])
                                     else Subjects(gs[..i]) + [gs[i].subject]
    ensures forall s :: OfSubject(gs[..i + 1], s) == OfSubject(gs[..i], s) + (if gs[i].subject == s then [gs[i]] else [])
    ensures gs[i].subject !in Subjects(gs[..i]) ==> OfSubject(gs[..i], gs[i].subject) == []
  {
    assert gs[..i + 1] == gs[..i] + [gs[i]];
    assert gs[..i + 1][..i] == gs[..i];
    forall s ensures OfSubject(gs[..i + 1], s) == OfSubject(gs[..i], s) + (if gs[i].subject == s then [gs[i]] else []) {
      OfSubjectSnoc(gs[..i], gs[i], s);
    }
    if gs[i].subject !in Subjects(gs[..i]) {
      UnlistedHasNoGrades(gs[..i], gs[i].subject);
    }
  }

  /** `grades.reduce((acc, grade) => { ...; acc[grade.subject].push(grade); return acc }, {})`:
      the accumulator object is the map `groups` together with `created`,
      the order in which its keys were created. `Object.entries` then
      lists the keys in `EntriesOrder(created)`, which is `Keys(grades)`. */
  method GroupBySubject(grades: seq<Grade>) returns (groups: map<string, seq<Grade>>, created: seq<string>)
    ensures created == Subjects(grades)
    ensures EntriesOrder(created) == Keys(grades)
    ensures forall s :: s in groups <==> s in created
    ensures forall s :: s in groups ==> groups[s] == OfSubject(grades, s)
  {
    groups := map[];
    created := [];
    for i := 0 to |grades|
      invariant created == Subjects(grades[..i])
      invariant forall s :: s in groups <==> s in created
      invariant forall s :: s in groups ==> groups[s] == OfSubject(grades[..i], s)
    {
      var g := grades[i];
      GroupStep(grades, i);
      if g.subject !in groups {
        groups := groups[g.subject := []];
        created := created + [g.subject];
      }
      groups := groups[g.subject := groups[g.subject] + [g]];
    }
    assert grades[..|grades|] == grades;
  }

  /** The keys every plain object inherits from `Object.prototype`; for
      them `acc[subject]` is already truthy (a function, or the prototype
      itself for `__proto__`). */
  const InheritedKeys: set<string> := {
    "constructor", "__proto__", "toString", "toLocaleString", "valueOf", "hasOwnProperty",
    "isPrototypeOf", "propertyIsEnumerable", "__defineGetter__", "__defineSetter__",
    "__lookupGetter__", "__lookupSetter__"}

  /** The reduce as the page writes it, over a plain `{}`: a subject that
      is neither an own key nor inherited starts a group; an inherited one
      passes the `!acc[subject]` test, so no array is made and `push` on
      the inherited value throws, which is `None` here. */
  function GroupAsWritten(gs: seq<Grade>): Option<map<string, seq<Grade>>>
    decreases |gs|
  {
    if gs == [] then Some(map[])
    else
      match GroupAsWritten(gs[..|gs| - 1])
      case None => None
      case Some(acc) =>
        var g := gs[|gs| - 1];
        if g.subject in acc then Some(acc[g.subject := acc[g.subject] + [g]])
        else if g.subject in InheritedKeys then None
        else Some(acc[g.subject := [g]])
  }

  /** A single grade of the subject `constructor` makes the page's grouping
      throw, while `GroupBySubject` gives it a group of its own. */
  lemma InheritedSubjectBreaksGrouping(g: Grade)
    requires g.subject == "constructor"
    ensures GroupAsWritten([g]) == None
    ensures Subjects([g]) == ["constructor"] && OfSubject([g], "constructor") == [g]
  {
    assert [g][..0] == [];
  }

  // ---------------------------------------------------------------------
  // Counts
  // ---------------------------------------------------------------------

  /** The sum of the group sizes of the subjects `ss`. */
  function CountsSum(gs: seq<Grade>, ss: seq<string>): nat
    decreases |ss|
  {
    if ss == [] then 0 else CountsSum(gs, ss[..|ss| - 1]) + |OfSubject(gs, ss[|ss| - 1])|
  }

  /** Adding a grade of subject `t` adds one to the sum when `t` is listed once. */
  lemma {:induction false} CountsSumBump(init: seq<Grade>, g: Grade, ss: seq<string>)
    requires NoDuplicates(ss)
    ensures CountsSum(init + [g], ss) == CountsSum(init, ss) + (if g.subject in ss then 1 else 0)
    decreases |ss|
  {
    if ss != [] {
      var front := ss[..|ss| - 1];
      CountsSumBump(init, g, front);
      OfSubjectSnoc(init, g, ss[|ss| - 1]);
      assert g.subject in ss <==> g.subject in front || g.subject == ss[|ss| - 1];
      assert g.subject == ss[|ss| - 1] ==> g.subject !in front;
    }
  }

  /** Without grades every subject's group is empty. */
  lemma {:induction false} CountsSumOfNone(ss: seq<string>)
    ensures CountsSum([], ss) == 0
    decreases |ss|
  {
    if ss != [] {
      CountsSumOfNone(ss[..|ss| - 1]);
    }
  }

  /** The group sizes of a list of distinct subjects that covers every
      grade add up to the number of grades, whatever the order of the list. */
  lemma {:induction false} CountsSumToTotal(gs: seq<Grade>, ss: seq<string>)
    requires NoDuplicates(ss)
    requires forall i :: 0 <= i < |gs| ==> gs[i].subject in ss
    ensures CountsSum(gs, ss) == |gs|
    decreases |gs|
  {
    if gs == [] {
      CountsSumOfNone(ss);
    } else {
      var init, g := gs[..|gs| - 1], gs[|gs| - 1];
      assert gs == init + [g];
      assert forall i :: 0 <= i < |init| ==> init[i] == gs[i];
      CountsSumToTotal(init, ss);
      CountsSumBump(init, g, ss);
    }
  }

  // ---------------------------------------------------------------------
  // Averages
  // ---------------------------------------------------------------------

  datatype SubjectAverage = SubjectAverage(subject: string, average: real, count: nat)

  function AveragesFor(gs: seq<Grade>, ss: seq<string>): (r: seq<SubjectAverage>)
    requires forall s :: s in ss ==> |OfSubject(gs, s)| > 0
    ensures |r| == |ss|
    ensures forall i :: 0 <= i < |ss| ==>
      r[i] == SubjectAverage(ss[i], Mean(Values(OfSubject(gs, ss[i]))), |OfSubject(gs, ss[i])|)
  {
    if ss == [] then []
    else [SubjectAverage(ss[0], Mean(Values(OfSubject(gs, ss[0]))), |OfSubject(gs, ss[0])|)] + AveragesFor(gs, ss[1..])
  }

  /** `subjectAverages`: per subject, the mean of its group and its size. */
  function SubjectAverages(gs: seq<Grade>): seq<SubjectAverage>
  {
    SubjectsHaveGrades(gs);
    AveragesFor(gs, Keys(gs))
  }

  /** One entry per subject, in key order; its count is its group's size
      and its average lies between the group's lowest and highest value. */
  lemma SubjectAveragesSpec(gs: seq<Grade>)
    ensures var r := SubjectAverages(gs);
      && |r| == |Keys(gs)|
      && forall i :: 0 <= i < |r| ==>
           && r[i].subject == Keys(gs)[i]
           && r[i].count == |OfSubject(gs, r[i].subject)| > 0
           && Min(Values(OfSubject(gs, r[i].subject))) <= r[i].average <= Max(Values(OfSubject(gs, r[i].subject)))
  {
    SubjectsHaveGrades(gs);
    var r := SubjectAverages(gs);
    forall i | 0 <= i < |r|
      ensures Min(Values(OfSubject(gs, r[i].subject))) <= r[i].average <= Max(Values(OfSubject(gs, r[i].subject)))
    {
      MeanBetweenMinMax(Values(OfSubject(gs, r[i].subject)));
    }
  }

  function SumCounts(r: seq<SubjectAverage>): nat
    decreases |r|
  {
    if r == [] then 0 else SumCounts(r[..|r| - 1]) + r[|r| - 1].count
  }

  lemma {:induction false} SumCountsOfAverages(gs: seq<Grade>, ss: seq<string>)
    requires forall s :: s in ss ==> |OfSubject(gs, s)| > 0
    ensures SumCounts(AveragesFor(gs, ss)) == CountsSum(gs, ss)
    decreases |ss|
  {
    if ss != [] {
      var front := ss[..|ss| - 1];
      SumCountsOfAverages(gs, front);
      var r := AveragesFor(gs, ss);
      assert r[..|r| - 1] == AveragesFor(gs, front);
    }
  }

  /** The per-subject counts add up to the number of grades. */
  lemma SubjectCountsSumToTotal(gs: seq<Grade>)
    ensures SumCounts(SubjectAverages(gs)) == |gs|
  {
    SubjectsHaveGrades(gs);
    SumCountsOfAverages(gs, Keys(gs));
    KeysSpec(gs);
    CountsSumToTotal(gs, Keys(gs));
  }

  function Averages(r: seq<SubjectAverage>): (vs: seq<real>)
    ensures |vs| == |r|
    ensures forall i :: 0 <= i < |r| ==> vs[i] == r[i].average
  {
    seq(|r|, i requires 0 <= i < |r| => r[i].average)
  }

  /** `overallAverage`: the unweighted mean of the subject averages, or 0
      (`NaN || 0`) when there are none. */
  function OverallAverage(gs: seq<Grade>): real
  {
    var r := SubjectAverages(gs);
    if |r| == 0 then 0.0 else Mean(Averages(r))
  }

  /** Every group's average lies within any bounds of all the grades. */
  lemma GroupAverageWithin(gs: seq<Grade>, s: string, lo: real, hi: real)
    requires |OfSubject(gs, s)| > 0
    requires forall i :: 0 <= i < |gs| ==> lo <= gs[i].value <= hi
    ensures lo <= Mean(Values(OfSubject(gs, s))) <= hi
  {
    var group := OfSubject(gs, s);
    FilterMembership(gs, HasSubject(s));
    forall j | 0 <= j < |group| ensures lo <= Values(group)[j] <= hi {
      assert group[j] in gs;
    }
    MeanBounds(Values(group), lo, hi);
  }

  /** The overall average is 0 without grades and otherwise lies between
      the lowest and the highest grade. */
  lemma OverallAverageBounds(gs: seq<Grade>)
    ensures gs == [] ==> OverallAverage(gs) == 0.0
    ensures gs != [] ==> Min(Values(gs)) <= OverallAverage(gs) <= Max(Values(gs))
  {
    if gs != [] {
      var lo, hi := Min(Values(gs)), Max(Values(gs));
      assert forall i :: 0 <= i < |gs| ==> lo <= Values(gs)[i] <= hi;
      var r := SubjectAverages(gs);
      SubjectsHaveGrades(gs);
      KeysSpec(gs);
      assert gs[0].subject in Keys(gs);
      forall i | 0 <= i < |r| ensures lo <= Averages(r)[i] <= hi {
        GroupAverageWithin(gs, Keys(gs)[i], lo, hi);
      }
      MeanBounds(Averages(r), lo, hi);
    }
  }

  // ---------------------------------------------------------------------
  // Search
  // ---------------------------------------------------------------------

  function NameMatches(term: string): SubjectAverage -> bool
  {
    (a: SubjectAverage) => ContainsIgnoreCase(a.subject, term)
  }

  /** `filteredSubjects`: the subjects whose name contains the term, ignoring case. */
  function FilteredSubjects(r: seq<SubjectAverage>, term: string): seq<SubjectAverage>
  {
    Filter(r, NameMatches(term))
  }

  /** The search keeps exactly the matching subjects, every copy of each,
      in order; an empty
      term keeps them all. */
  lemma FilteredSubjectsSpec(r: seq<SubjectAverage>, term: string)
    ensures forall a :: a in FilteredSubjects(r, term) <==> a in r && ContainsIgnoreCase(a.subject, term)
    ensures forall a :: multiset(FilteredSubjects(r, term))[a] ==
              if ContainsIgnoreCase(a.subject, term) then multiset(r)[a] else 0
    ensures IsSubsequence(FilteredSubjects(r, term), r)
    ensures term == "" ==> FilteredSubjects(r, term) == r
  {
    FilterMembership(r, NameMatches(term));
    FilterIsSubsequence(r, NameMatches(term));
    FilterMultiset(r, NameMatches(term));
    if term == "" {
      forall i | 0 <= i < |r| ensures ContainsIgnoreCase(r[i].subject, term) {
        ContainsIgnoreCaseEmpty(r[i].subject);
      }
      FilterKeepsAll(r, NameMatches(term));
    }
  }
}
