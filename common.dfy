/** Small building blocks shared by every page: optional values, the
    array helpers the pages call (`filter`, `filter(...).length`,
    `slice(0, n)`), the arithmetic mean of a `reduce` sum, and the
    case-insensitive substring test `a.toLowerCase().includes(b.toLowerCase())`. */
module Common {

  datatype Option<T> = None | Some(value: T)

  datatype Result<T, E> = Ok(value: T) | Err(error: E)

  // ---------------------------------------------------------------------
  // Sequences
  // ---------------------------------------------------------------------

  /** `s.filter(p)`: the elements satisfying `p`, in their original order. */
  function Filter<T>(s: seq<T>, p: T -> bool): (r: seq<T>)
    ensures |r| <= |s|
    ensures forall i :: 0 <= i < |r| ==> p(r[i])
  {
    if s == [] then [] else (if p(s[0]) then [s[0]] else []) + Filter(s[1..], p)
  }

  /** `s.filter(p).length`. */
  function Count<T>(s: seq<T>, p: T -> bool): nat
  {
    |Filter(s, p)|
  }

  /** `s.slice(0, n)`: the first `n` elements, or all of them when there are fewer. */
  function Take<T>(s: seq<T>, n: nat): (r: seq<T>)
    ensures |r| == (if |s| < n then |s| else n)
    ensures r == s[..|r|]
  {
    if |s| <= n then s else s[..n]
  }

  predicate NoDuplicates<T(==)>(s: seq<T>)
  {
    forall i, j :: 0 <= i < j < |s| ==> s[i] != s[j]
  }

  /** `a` can be obtained from `b` by deleting elements. */
  predicate IsSubsequence<T(==)>(a: seq<T>, b: seq<T>)
    decreases |b|
  {
    if a == [] then true
    else if b == [] then false
    else if a[0] == b[0] then IsSubsequence(a[1..], b[1..])
    else IsSubsequence(a, b[1..])
  }

  /** A subsequence of the tail is a subsequence of the whole. */
  lemma {:induction false} SubsequenceOfTail<T>(a: seq<T>, b: seq<T>)
    requires b != [] && IsSubsequence(a, b[1..])
    ensures IsSubsequence(a, b)
    decreases |a| + |b|
  {
    if a != [] && a[0] == b[0] {
      SubsequenceDropHead(a, b[1..]);
    }
  }

  /** Removing the first element of a subsequence leaves a subsequence. */
  lemma {:induction false} SubsequenceDropHead<T>(a: seq<T>, b: seq<T>)
    requires a != [] && IsSubsequence(a, b)
    ensures IsSubsequence(a[1..], b)
    decreases |a| + |b|
  {
    if a[0] != b[0] {
      SubsequenceDropHead(a, b[1..]);
    }
    SubsequenceOfTail(a[1..], b);
  }

  /** An element is kept by a filter exactly when it occurs and satisfies the predicate. */
  lemma {:induction false} FilterMembership<T>(s: seq<T>, p: T -> bool)
    ensures forall x :: x in Filter(s, p) <==> x in s && p(x)
  {
    if s != [] {
      FilterMembership(s[1..], p);
      assert s == [s[0]] + s[1..];
    }
  }

  /** Filtering distributes over concatenation. */
  lemma {:induction false} FilterConcat<T>(a: seq<T>, b: seq<T>, p: T -> bool)
    ensures Filter(a + b, p) == Filter(a, p) + Filter(b, p)
  {
    if a == [] {
      assert a + b == b;
    } else {
      assert (a + b)[0] == a[0];
      assert (a + b)[1..] == a[1..] + b;
      FilterConcat(a[1..], b, p);
    }
  }

  /** A filter keeps every copy of an element that satisfies the predicate
      and no copy of one that does not. */
  lemma {:induction false} FilterMultiset<T>(s: seq<T>, p: T -> bool)
    ensures forall x :: multiset(Filter(s, p))[x] == if p(x) then multiset(s)[x] else 0
  {
    if s != [] {
      FilterMultiset(s[1..], p);
      assert s == [s[0]] + s[1..];
    }
  }

  /** A filter whose predicate holds everywhere keeps the whole sequence. */
  lemma {:induction false} FilterKeepsAll<T>(s: seq<T>, p: T -> bool)
    requires forall i :: 0 <= i < |s| ==> p(s[i])
    ensures Filter(s, p) == s
  {
    if s != [] {
      FilterKeepsAll(s[1..], p);
    }
  }

  /** A filter whose predicate holds nowhere keeps nothing. */
  lemma {:induction false} FilterKeepsNone<T>(s: seq<T>, p: T -> bool)
    requires forall i :: 0 <= i < |s| ==> !p(s[i])
    ensures Filter(s, p) == []
  {
    if s != [] {
      FilterKeepsNone(s[1..], p);
    }
  }

  /** A filter keeps the original relative order: its result is a subsequence. */
  lemma {:induction false} FilterIsSubsequence<T>(s: seq<T>, p: T -> bool)
    ensures IsSubsequence(Filter(s, p), s)
  {
    if s != [] {
      FilterIsSubsequence(s[1..], p);
      var rest := Filter(s[1..], p);
      if p(s[0]) {
        assert Filter(s, p) == [s[0]] + rest;
        assert ([s[0]] + rest)[1..] == rest;
      } else {
        assert Filter(s, p) == rest;
        assert rest != [] ==> rest[0] != s[0];
      }
    }
  }

  /** Two predicates that split every element one way or the other count up to the length. */
  lemma {:induction false} CountPartition<T>(s: seq<T>, p: T -> bool, q: T -> bool)
    requires forall i :: 0 <= i < |s| ==> p(s[i]) != q(s[i])
    ensures Count(s, p) + Count(s, q) == |s|
  {
    if s != [] {
      CountPartition(s[1..], p, q);
    }
  }

  /** `s.map(f)`. */
  function Mapped<T, U>(s: seq<T>, f: T -> U): (r: seq<U>)
    ensures |r| == |s|
    ensures forall i :: 0 <= i < |s| ==> r[i] == f(s[i])
  {
    seq(|s|, i requires 0 <= i < |s| => f(s[i]))
  }

  /** Counting the elements that satisfy `p` is counting how often `v`
      occurs among the mapped values, when `p` holds exactly where `f`
      gives `v`. */
  lemma {:induction false} CountAsMultiplicity<T, U>(s: seq<T>, p: T -> bool, f: T -> U, v: U)
    requires forall x :: p(x) <==> f(x) == v
    ensures Count(s, p) == multiset(Mapped(s, f))[v]
  {
    if s != [] {
      CountAsMultiplicity(s[1..], p, f, v);
      assert Mapped(s, f) == [f(s[0])] + Mapped(s[1..], f);
    }
  }

  /** A predicate that holds at exactly one position counts one. */
  lemma {:induction false} CountSingle<T>(s: seq<T>, p: T -> bool, k: nat)
    requires k < |s| && p(s[k])
    requires forall j :: 0 <= j < |s| && p(s[j]) ==> j == k
    ensures Count(s, p) == 1
  {
    if k == 0 {
      FilterKeepsNone(s[1..], p);
    } else {
      CountSingle(s[1..], p, k - 1);
      assert !p(s[0]);
    }
  }

  // ---------------------------------------------------------------------
  // Arithmetic over grade values (idealised: `real`, not IEEE doubles)
  // ---------------------------------------------------------------------

  /** `vs.reduce((sum, v) => sum + v, 0)`. */
  function Sum(vs: seq<real>): real
  {
    if vs == [] then 0.0 else vs[0] + Sum(vs[1..])
  }

  function Mean(vs: seq<real>): real
    requires |vs| > 0
  {
    Sum(vs) / (|vs| as real)
  }

  function Min(vs: seq<real>): (m: real)
    requires |vs| > 0
    ensures m in vs
    ensures forall i :: 0 <= i < |vs| ==> m <= vs[i]
  {
    if |vs| == 1 then vs[0]
    else var m := Min(vs[1..]); if vs[0] <= m then vs[0] else m
  }

  function Max(vs: seq<real>): (m: real)
    requires |vs| > 0
    ensures m in vs
    ensures forall i :: 0 <= i < |vs| ==> vs[i] <= m
  {
    if |vs| == 1 then vs[0]
    else var m := Max(vs[1..]); if vs[0] >= m then vs[0] else m
  }

  lemma {:induction false} SumBounds(vs: seq<real>, lo: real, hi: real)
    requires forall i :: 0 <= i < |vs| ==> lo <= vs[i] <= hi
    ensures (|vs| as real) * lo <= Sum(vs) <= (|vs| as real) * hi
  {
    if vs != [] {
      SumBounds(vs[1..], lo, hi);
    }
  }

  /** A mean lies within any bounds of the values it averages. */
  lemma MeanBounds(vs: seq<real>, lo: real, hi: real)
    requires |vs| > 0
    requires forall i :: 0 <= i < |vs| ==> lo <= vs[i] <= hi
    ensures lo <= Mean(vs) <= hi
  {
    SumBounds(vs, lo, hi);
    var n := |vs| as real;
    assert Sum(vs) == Mean(vs) * n;
  }

  /** A mean lies between the smallest and the largest value. */
  lemma MeanBetweenMinMax(vs: seq<real>)
    requires |vs| > 0
    ensures Min(vs) <= Mean(vs) <= Max(vs)
  {
    MeanBounds(vs, Min(vs), Max(vs));
  }

  // ---------------------------------------------------------------------
  // Case-insensitive substring search
  // ---------------------------------------------------------------------

  /** `toLowerCase` restricted to ASCII letters. */
  function LowerChar(c: char): char
  {
    if 'A' <= c <= 'Z' then (c as int + 32) as char else c
  }

  function Lower(s: string): (r: string)
    ensures |r| == |s|
    ensures forall i :: 0 <= i < |s| ==> r[i] == LowerChar(s[i])
  {
    seq(|s|, i requires 0 <= i < |s| => LowerChar(s[i]))
  }

  predicate OccursAt(s: string, t: string, i: int)
  {
    0 <= i && i + |t| <= |s| && s[i..i + |t|] == t
  }

  /** `s.includes(t)`. */
  predicate Contains(s: string, t: string)
  {
    exists i :: 0 <= i <= |s| - |t| && OccursAt(s, t, i)
  }

  /** `s.toLowerCase().includes(t.toLowerCase())`. */
  predicate ContainsIgnoreCase(s: string, t: string)
  {
    Contains(Lower(s), Lower(t))
  }

  /** The empty search term matches every text. */
  lemma ContainsIgnoreCaseEmpty(s: string)
    ensures ContainsIgnoreCase(s, "")
  {
    assert OccursAt(Lower(s), Lower(""), 0);
  }

  // ---------------------------------------------------------------------
  // Own-key order of a plain object (`Object.keys`, `Object.entries`)
  // ---------------------------------------------------------------------

  predicate IsDigit(c: char)
  {
    '0' <= c <= '9'
  }

  function DigitValue(c: char): nat
  {
    if IsDigit(c) then c as int - '0' as int else 0
  }

  /** The number a string of decimal digits denotes. */
  function DigitsValue(s: string): nat
    decreases |s|
  {
    if s == [] then 0 else DigitsValue(s[..|s| - 1]) * 10 + DigitValue(s[|s| - 1])
  }

  /** An array index: the canonical decimal form of an integer below
      2^32 - 1, such as `0` or `42`, but not `07`, `-1` or `1.5`. */
  predicate IsArrayIndex(k: string)
  {
    && |k| > 0
    && (forall i :: 0 <= i < |k| ==> IsDigit(k[i]))
    && (k[0] != '0' || |k| == 1)
    && DigitsValue(k) < 0xFFFF_FFFF
  }

  predicate NotArrayIndex(k: string)
  {
    !IsArrayIndex(k)
  }

  predicate Ascending(ks: seq<string>)
  {
    forall i, j :: 0 <= i < j < |ks| ==> DigitsValue(ks[i]) <= DigitsValue(ks[j])
  }

  /** Inserts `k` before the first key of greater value. */
  function InsertAscending(sorted: seq<string>, k: string): seq<string>
  {
    if sorted == [] then [k]
    else if DigitsValue(sorted[0]) <= DigitsValue(k) then [sorted[0]] + InsertAscending(sorted[1..], k)
    else [k] + sorted
  }

  lemma {:induction false} InsertAscendingMembers(sorted: seq<string>, k: string)
    ensures |InsertAscending(sorted, k)| == |sorted| + 1
    ensures forall x :: x in InsertAscending(sorted, k) <==> x in sorted || x == k
    ensures k !in sorted && NoDuplicates(sorted) ==> NoDuplicates(InsertAscending(sorted, k))
  {
    if sorted != [] && DigitsValue(sorted[0]) <= DigitsValue(k) {
      InsertAscendingMembers(sorted[1..], k);
      assert sorted == [sorted[0]] + sorted[1..];
      if k !in sorted && NoDuplicates(sorted) {
        NoDuplicatesCons(sorted[0], InsertAscending(sorted[1..], k));
        NoDuplicatesCons(sorted[0], sorted[1..]);
      }
    } else if sorted != [] {
      NoDuplicatesCons(k, sorted);
    }
  }

  /** Inserting keeps every lower bound that holds for the list and for `k`. */
  lemma {:induction false} InsertAscendingBounded(sorted: seq<string>, k: string, t: nat)
    requires forall i :: 0 <= i < |sorted| ==> t <= DigitsValue(sorted[i])
    requires t <= DigitsValue(k)
    ensures forall i :: 0 <= i < |InsertAscending(sorted, k)| ==> t <= DigitsValue(InsertAscending(sorted, k)[i])
  {
    if sorted != [] && DigitsValue(sorted[0]) <= DigitsValue(k) {
      InsertAscendingBounded(sorted[1..], k, t);
    }
  }

  lemma {:induction false} InsertAscendingOrdered(sorted: seq<string>, k: string)
    requires Ascending(sorted)
    ensures Ascending(InsertAscending(sorted, k))
  {
    if sorted != [] && DigitsValue(sorted[0]) <= DigitsValue(k) {
      var tail := InsertAscending(sorted[1..], k);
      InsertAscendingOrdered(sorted[1..], k);
      InsertAscendingBounded(sorted[1..], k, DigitsValue(sorted[0]));
      var r := [sorted[0]] + tail;
      forall i, j | 0 <= i < j < |r| ensures DigitsValue(r[i]) <= DigitsValue(r[j]) {
        assert r[j] == tail[j - 1];
        if i > 0 {
          assert r[i] == tail[i - 1];
        }
      }
    }
  }

  /** A list with a new head has no duplicates exactly when the tail has
      none and does not hold the head. */
  lemma NoDuplicatesCons(x: string, s: seq<string>)
    ensures NoDuplicates([x] + s) <==> x !in s && NoDuplicates(s)
  {
    var r := [x] + s;
    if x !in s && NoDuplicates(s) {
      forall i, j | 0 <= i < j < |r| ensures r[i] != r[j] {
        assert r[j] == s[j - 1];
        if i > 0 {
          assert r[i] == s[i - 1];
        }
      }
    }
    if NoDuplicates(r) {
      forall i, j | 0 <= i < j < |s| ensures s[i] != s[j] {
        assert s[i] == r[i + 1] && s[j] == r[j + 1];
      }
      forall j | 0 <= j < |s| ensures s[j] != x {
        assert r[0] != r[j + 1];
      }
    }
  }

  /** The keys in ascending numeric order (the relative order of keys of
      equal value is kept). */
  function SortAscending(ks: seq<string>): seq<string>
    decreases |ks|
  {
    if ks == [] then [] else InsertAscending(SortAscending(ks[..|ks| - 1]), ks[|ks| - 1])
  }

  lemma {:induction false} SortAscendingSpec(ks: seq<string>)
    ensures Ascending(SortAscending(ks))
    ensures |SortAscending(ks)| == |ks|
    ensures forall x :: x in SortAscending(ks) <==> x in ks
    ensures NoDuplicates(ks) ==> NoDuplicates(SortAscending(ks))
    decreases |ks|
  {
    if ks != [] {
      var init, k := ks[..|ks| - 1], ks[|ks| - 1];
      assert ks == init + [k];
      SortAscendingSpec(init);
      InsertAscendingOrdered(SortAscending(init), k);
      InsertAscendingMembers(SortAscending(init), k);
      if NoDuplicates(ks) {
        assert NoDuplicates(init) by {
          forall i, j | 0 <= i < j < |init| ensures init[i] != init[j] {
            assert init[i] == ks[i] && init[j] == ks[j];
          }
        }
        forall i | 0 <= i < |init| ensures init[i] != k {
          assert ks[i] != ks[|ks| - 1];
        }
      }
    }
  }

  /** A filter of a list without duplicates has none. */
  lemma {:induction false} FilterNoDuplicates(s: seq<string>, p: string -> bool)
    requires NoDuplicates(s)
    ensures NoDuplicates(Filter(s, p))
  {
    if s != [] {
      NoDuplicatesCons(s[0], s[1..]);
      assert s == [s[0]] + s[1..];
      FilterNoDuplicates(s[1..], p);
      FilterMembership(s[1..], p);
      if p(s[0]) {
        NoDuplicatesCons(s[0], Filter(s[1..], p));
      }
    }
  }

  /** The order in which `Object.keys` and `Object.entries` list the own
      keys of a plain object whose keys were created in the order
      `inserted`: first the array indices in ascending numeric order, then
      every other key in the order it was created (section 10.1.11.1 of
      ECMA-262, OrdinaryOwnPropertyKeys). */
  function EntriesOrder(inserted: seq<string>): seq<string>
  {
    SortAscending(Filter(inserted, IsArrayIndex)) + Filter(inserted, NotArrayIndex)
  }

  /** Two lists without duplicates and without a common element join into
      a list without duplicates. */
  lemma ConcatNoDuplicates(a: seq<string>, b: seq<string>)
    requires NoDuplicates(a) && NoDuplicates(b)
    requires forall x :: x in a ==> x !in b
    ensures NoDuplicates(a + b)
  {
    var r := a + b;
    forall i, j | 0 <= i < j < |r| ensures r[i] != r[j] {
      if j < |a| {
        assert r[i] == a[i] && r[j] == a[j];
      } else if i >= |a| {
        assert r[i] == b[i - |a|] && r[j] == b[j - |a|];
      } else {
        assert r[i] in a && r[j] == b[j - |a|];
      }
    }
  }

  /** The keys are listed once each, and exactly the created ones. */
  lemma EntriesOrderMembers(inserted: seq<string>)
    requires NoDuplicates(inserted)
    ensures |EntriesOrder(inserted)| == |inserted|
    ensures NoDuplicates(EntriesOrder(inserted))
    ensures forall k :: k in EntriesOrder(inserted) <==> k in inserted
  {
    var idx, named := Filter(inserted, IsArrayIndex), Filter(inserted, NotArrayIndex);
    SortAscendingSpec(idx);
    FilterMembership(inserted, IsArrayIndex);
    FilterMembership(inserted, NotArrayIndex);
    CountPartition(inserted, IsArrayIndex, NotArrayIndex);
    FilterNoDuplicates(inserted, IsArrayIndex);
    FilterNoDuplicates(inserted, NotArrayIndex);
    ConcatNoDuplicates(SortAscending(idx), named);
  }

  /** No key that is not an array index comes before an array index, and
      the array indices ascend. */
  lemma EntriesOrderIndicesFirst(inserted: seq<string>)
    ensures var r := EntriesOrder(inserted);
      forall i, j :: 0 <= i < j < |r| && IsArrayIndex(r[j]) ==>
        IsArrayIndex(r[i]) && DigitsValue(r[i]) <= DigitsValue(r[j])
  {
    var idx, named := Filter(inserted, IsArrayIndex), Filter(inserted, NotArrayIndex);
    var a := SortAscending(idx);
    var r := a + named;
    SortAscendingSpec(idx);
    FilterMembership(inserted, IsArrayIndex);
    forall i, j | 0 <= i < j < |r| && IsArrayIndex(r[j])
      ensures IsArrayIndex(r[i]) && DigitsValue(r[i]) <= DigitsValue(r[j])
    {
      assert j < |a|;
      assert r[i] == a[i] && r[j] == a[j];
      assert a[i] in idx;
    }
  }

  /** The keys that are not array indices keep their creation order, and
      without array indices the order is the creation order itself. */
  lemma EntriesOrderNamedKeys(inserted: seq<string>)
    ensures Filter(EntriesOrder(inserted), NotArrayIndex) == Filter(inserted, NotArrayIndex)
    ensures (forall i :: 0 <= i < |inserted| ==> NotArrayIndex(inserted[i])) ==> EntriesOrder(inserted) == inserted
  {
    var idx, named := Filter(inserted, IsArrayIndex), Filter(inserted, NotArrayIndex);
    var a := SortAscending(idx);
    SortAscendingSpec(idx);
    FilterMembership(inserted, IsArrayIndex);
    FilterConcat(a, named, NotArrayIndex);
    assert forall i :: 0 <= i < |a| ==> a[i] in idx;
    FilterKeepsNone(a, NotArrayIndex);
    FilterKeepsAll(named, NotArrayIndex);
    if forall i :: 0 <= i < |inserted| ==> NotArrayIndex(inserted[i]) {
      FilterKeepsNone(inserted, IsArrayIndex);
      FilterKeepsAll(inserted, NotArrayIndex);
    }
  }

  /** Every key is listed once; array indices come first, in ascending
      order; the other keys keep their creation order; and without array
      indices the order is the creation order itself. */
  lemma EntriesOrderSpec(inserted: seq<string>)
    requires NoDuplicates(inserted)
    ensures var r := EntriesOrder(inserted);
      && |r| == |inserted|
      && NoDuplicates(r)
      && (forall k :: k in r <==> k in inserted)
      && (forall i, j :: 0 <= i < j < |r| && IsArrayIndex(r[j]) ==>
            IsArrayIndex(r[i]) && DigitsValue(r[i]) <= DigitsValue(r[j]))
      && Filter(r, NotArrayIndex) == Filter(inserted, NotArrayIndex)
      && ((forall i :: 0 <= i < |inserted| ==> NotArrayIndex(inserted[i])) ==> r == inserted)
  {
    EntriesOrderMembers(inserted);
    EntriesOrderIndicesFirst(inserted);
    EntriesOrderNamedKeys(inserted);
  }
}
