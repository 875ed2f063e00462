/** The student's homework page (`Homework`): the submission handler that
    checks the text and marks one assignment submitted, the search over
    subject and title, and the number of pending assignments. */
module Homework {
  import opened Common

  datatype Status = Pending | Submitted

  /** The page's own assignment shape; the deadline is only displayed. */
  datatype Assignment = Assignment(
    id: string,
    subject: string,
    title: string,
    description: string,
    deadline: string,
    status: Status,
    submissionText: Option<string>,
    grade: Option<real>,
    feedback: Option<string>)

  // ---------------------------------------------------------------------
  // String.prototype.trim
  // ---------------------------------------------------------------------

  /** The characters `trim` removes: the ECMAScript white space and line
      terminators. */
  predicate IsWhitespace(c: char)
  {
    || c == ' ' || c == '\t' || c == '\n' || c == '\r' || c == '\U{000B}' || c == '\U{000C}'
    || c == '\U{00A0}' || c == '\U{1680}' || ('\U{2000}' <= c <= '\U{200A}')
    || c == '\U{2028}' || c == '\U{2029}' || c == '\U{202F}' || c == '\U{205F}'
    || c == '\U{3000}' || c == '\U{FEFF}'
  }

  /** `trimStart`: the leading white space removed, and nothing else. */
  function TrimStart(s: string): (r: string)
    ensures |r| <= |s| && r == s[|s| - |r|..]
    ensures forall i :: 0 <= i < |s| - |r| ==> IsWhitespace(s[i])
    ensures r == [] <==> forall i :: 0 <= i < |s| ==> IsWhitespace(s[i])
    ensures r != [] ==> !IsWhitespace(r[0])
  {
    if s == [] then []
    else if IsWhitespace(s[0]) then
      var r := TrimStart(s[1..]);
      assert forall i :: 1 <= i < |s| ==> s[i] == s[1..][i - 1];
      r
    else s
  }

  /** `trimEnd`: the trailing white space removed, and nothing else. */
  function TrimEnd(s: string): (r: string)
    ensures |r| <= |s| && r == s[..|r|]
    ensures forall i :: |r| <= i < |s| ==> IsWhitespace(s[i])
    ensures r == [] <==> forall i :: 0 <= i < |s| ==> IsWhitespace(s[i])
    ensures r != [] ==> !IsWhitespace(r[|r| - 1])
  {
    if s == [] then []
    else if IsWhitespace(s[|s| - 1]) then
      var r := TrimEnd(s[..|s| - 1]);
      assert forall i :: 0 <= i < |s| - 1 ==> s[i] == s[..|s| - 1][i];
      r
    else s
  }

  function Trim(s: string): string
  {
    TrimEnd(TrimStart(s))
  }

  /** `!text.trim()`: the text is empty once trimmed exactly when it
      consists of white space only. */
  lemma TrimEmptyIffBlank(s: string)
    ensures Trim(s) == [] <==> forall i :: 0 <= i < |s| ==> IsWhitespace(s[i])
  {
    var t := TrimStart(s);
    if t != [] {
      assert !IsWhitespace(t[0]);
    }
  }

  // ---------------------------------------------------------------------
  // Submission
  // ---------------------------------------------------------------------

  /** `{ ...a, status: 'submitted', submissionText }`. */
  function Submit(a: Assignment, text: string): Assignment
  {
    a.(status := Submitted, submissionText := Some(text))
  }

  /** `prev.map(a => a.id === id ? { ...a, status: 'submitted', submissionText } : a)`. */
  function MarkSubmitted(xs: seq<Assignment>, id: string, text: string): (r: seq<Assignment>)
    ensures |r| == |xs|
    ensures forall i :: 0 <= i < |xs| ==> r[i] == if xs[i].id == id then Submit(xs[i], text) else xs[i]
  {
    if xs == [] then []
    else [if xs[0].id == id then Submit(xs[0], text) else xs[0]] + MarkSubmitted(xs[1..], id, text)
  }

  /** Only the matching assignments change; each keeps its id, subject,
      title, description, deadline, grade and feedback; an id that is not
      in the list leaves the list as it is. */
  lemma MarkSubmittedSpec(xs: seq<Assignment>, id: string, text: string)
    ensures var r := MarkSubmitted(xs, id, text);
      && (forall i :: 0 <= i < |xs| ==>
            && r[i].id == xs[i].id && r[i].subject == xs[i].subject && r[i].title == xs[i].title
            && r[i].description == xs[i].description && r[i].deadline == xs[i].deadline
            && r[i].grade == xs[i].grade && r[i].feedback == xs[i].feedback
            && (r[i] != xs[i] ==> xs[i].id == id)
            && (xs[i].id == id ==> r[i].status == Submitted && r[i].submissionText == Some(text)))
      && ((forall i :: 0 <= i < |xs| ==> xs[i].id != id) ==> r == xs)
  {
  }

  function IsPending(): Assignment -> bool
  {
    (a: Assignment) => a.status == Pending
  }

  function PendingWithId(id: string): Assignment -> bool
  {
    (a: Assignment) => a.status == Pending && a.id == id
  }

  /** `assignments.filter(a => a.status === 'pending').length`. */
  function PendingCount(xs: seq<Assignment>): nat
  {
    Count(xs, IsPending())
  }

  /** Submitting drops the pending count by the number of pending
      assignments carrying that id. */
  lemma {:induction false} PendingAfterSubmit(xs: seq<Assignment>, id: string, text: string)
    ensures PendingCount(MarkSubmitted(xs, id, text)) == PendingCount(xs) - Count(xs, PendingWithId(id))
  {
    if xs != [] {
      PendingAfterSubmit(xs[1..], id, text);
      assert MarkSubmitted(xs, id, text)[1..] == MarkSubmitted(xs[1..], id, text);
    }
  }

  /** With ids unique, submitting a pending assignment lowers the count by
      exactly one, and submitting any other id leaves it unchanged. */
  lemma SubmitPendingLowersByOne(xs: seq<Assignment>, k: nat, text: string)
    requires k < |xs| && xs[k].status == Pending
    requires forall j :: 0 <= j < |xs| && xs[j].id == xs[k].id ==> j == k
    ensures PendingCount(MarkSubmitted(xs, xs[k].id, text)) == PendingCount(xs) - 1
  {
    PendingAfterSubmit(xs, xs[k].id, text);
    CountSingle(xs, PendingWithId(xs[k].id), k);
  }

  /** The page's state fields. */
  class HomeworkPage {
    var assignments: seq<Assignment>
    var searchTerm: string
    var selectedAssignment: Option<Assignment>
    var submissionText: string

    constructor (initial: seq<Assignment>)
      ensures assignments == initial && searchTerm == "" && selectedAssignment == None && submissionText == ""
    {
      assignments := initial;
      searchTerm := "";
      selectedAssignment := None;
      submissionText := "";
    }

    /** `handleSubmitAssignment(id)`: a text that is blank once trimmed is
        refused and nothing changes; otherwise the assignment is marked
        submitted with the untrimmed text and the dialog is reset. The
        store write is commented out in the page, so nothing can fail. */
    method SubmitAssignment(id: string) returns (accepted: bool)
      modifies this
      ensures accepted <==> Trim(old(submissionText)) != []
      ensures searchTerm == old(searchTerm)
      ensures accepted ==> && assignments == MarkSubmitted(old(assignments), id, old(submissionText))
                           && selectedAssignment == None && submissionText == ""
      ensures !accepted ==> && assignments == old(assignments)
                            && selectedAssignment == old(selectedAssignment) && submissionText == old(submissionText)
    {
      if Trim(submissionText) == [] {
        return false;
      }
      assignments := MarkSubmitted(assignments, id, submissionText);
      selectedAssignment := None;
      submissionText := "";
      accepted := true;
    }
  }

  // ---------------------------------------------------------------------
  // Search
  // ---------------------------------------------------------------------

  function MatchesTerm(term: string): Assignment -> bool
  {
    (a: Assignment) => ContainsIgnoreCase(a.subject, term) || ContainsIgnoreCase(a.title, term)
  }

  /** `filteredAssignments`. */
  function FilteredAssignments(xs: seq<Assignment>, term: string): seq<Assignment>
  {
    Filter(xs, MatchesTerm(term))
  }

  /** The search keeps exactly the assignments whose subject or title
      contains the term, ignoring case, every copy of each, in their
      original order; an empty term keeps them all. */
  lemma FilteredAssignmentsSpec(xs: seq<Assignment>, term: string)
    ensures forall a :: a in FilteredAssignments(xs, term) <==>
      a in xs && (ContainsIgnoreCase(a.subject, term) || ContainsIgnoreCase(a.title, term))
    ensures forall a :: multiset(FilteredAssignments(xs, term))[a] ==
              if MatchesTerm(term)(a) then multiset(xs)[a] else 0
    ensures IsSubsequence(FilteredAssignments(xs, term), xs)
    ensures term == "" ==> FilteredAssignments(xs, term) == xs
  {
    FilterMembership(xs, MatchesTerm(term));
    FilterIsSubsequence(xs, MatchesTerm(term));
    FilterMultiset(xs, MatchesTerm(term));
    if term == "" {
      forall i | 0 <= i < |xs| ensures MatchesTerm(term)(xs[i]) {
        ContainsIgnoreCaseEmpty(xs[i].subject);
      }
      FilterKeepsAll(xs, MatchesTerm(term));
    }
  }
}
