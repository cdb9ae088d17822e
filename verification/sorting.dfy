/** Python's `sorted`: a stable sort by a total preorder.
    A list sorted with `reverse=True` is the same sort by the opposite order, which keeps ties in place. */
module Sorting {

  ghost predicate TotalPreorder<T(!new)>(le: (T, T) -> bool) {
    && (forall a, b :: le(a, b) || le(b, a))
    && (forall a, b, c :: le(a, b) && le(b, c) ==> le(a, c))
  }

  ghost predicate SortedBy<T>(s: seq<T>, le: (T, T) -> bool) {
    forall i, j | 0 <= i < j < |s| :: le(s[i], s[j])
  }

  function Insert<T>(x: T, s: seq<T>, le: (T, T) -> bool): seq<T> {
    if s == [] then [x]
    else if le(x, s[0]) then [x] + s
    else [s[0]] + Insert(x, s[1..], le)
  }

  function StableSort<T>(s: seq<T>, le: (T, T) -> bool): seq<T> {
    if s == [] then [] else Insert(s[0], StableSort(s[1..], le), le)
  }

  function Filter<T>(s: seq<T>, p: T -> bool): seq<T> {
    if s == [] then [] else (if p(s[0]) then [s[0]] else []) + Filter(s[1..], p)
  }

  // ---- elements ----

  lemma {:induction false} InsertElements<T>(x: T, s: seq<T>, le: (T, T) -> bool)
    ensures multiset(Insert(x, s, le)) == multiset{x} + multiset(s)
  {
    if s != [] {
      assert s == [s[0]] + s[1..];
      if !le(x, s[0]) { InsertElements(x, s[1..], le); }
    }
  }

  lemma {:induction false} SortElements<T>(s: seq<T>, le: (T, T) -> bool)
    ensures multiset(StableSort(s, le)) == multiset(s)
    ensures |StableSort(s, le)| == |s|
  {
    if s != [] {
      assert s == [s[0]] + s[1..];
      SortElements(s[1..], le);
      InsertElements(s[0], StableSort(s[1..], le), le);
      assert |multiset(StableSort(s, le))| == |multiset(s)|;
    }
  }

  lemma SortMembers<T>(s: seq<T>, le: (T, T) -> bool)
    ensures forall x :: x in StableSort(s, le) <==> x in s
  {
    SortElements(s, le);
    forall x ensures x in StableSort(s, le) <==> x in s {
      assert x in StableSort(s, le) <==> x in multiset(StableSort(s, le));
      assert x in s <==> x in multiset(s);
    }
  }

  // ---- order ----

  lemma {:induction false} InsertSorted<T(!new)>(x: T, s: seq<T>, le: (T, T) -> bool)
    requires TotalPreorder(le) && SortedBy(s, le)
    ensures SortedBy(Insert(x, s, le), le)
  {
    if s != [] && !le(x, s[0]) {
      InsertSorted(x, s[1..], le);
      InsertElements(x, s[1..], le);
      var t := Insert(x, s[1..], le);
      forall k | 0 <= k < |t| ensures le(s[0], t[k]) {
        assert t[k] in multiset(t);
        if t[k] != x { assert t[k] in s[1..]; }
      }
    }
  }

  lemma {:induction false} SortSorted<T(!new)>(s: seq<T>, le: (T, T) -> bool)
    requires TotalPreorder(le)
    ensures SortedBy(StableSort(s, le), le)
  {
    if s != [] {
      SortSorted(s[1..], le);
      InsertSorted(s[0], StableSort(s[1..], le), le);
    }
  }

  // ---- filters ----

  lemma FilterCons<T>(x: T, s: seq<T>, p: T -> bool)
    ensures Filter([x] + s, p) == (if p(x) then [x] else []) + Filter(s, p)
  {
    assert ([x] + s)[1..] == s;
  }

  lemma {:induction false} FilterConcat<T>(s: seq<T>, t: seq<T>, p: T -> bool)
    ensures Filter(s + t, p) == Filter(s, p) + Filter(t, p)
    decreases |s|
  {
    if s == [] {
      assert s + t == t;
    } else {
      hide Filter;
      var x, rest := s[0], s[1..];
      FilterConcat(rest, t, p);
      FilterCons(x, rest + t, p);
      FilterCons(x, rest, p);
      assert s + t == [x] + (rest + t) && s == [x] + rest;
    }
  }

  lemma {:induction false} FilterMembers<T>(s: seq<T>, p: T -> bool)
    ensures forall x :: x in Filter(s, p) <==> x in s && p(x)
  {
    if s != [] {
      assert s == [s[0]] + s[1..];
      FilterMembers(s[1..], p);
    }
  }

  lemma {:induction false} FilterAll<T>(s: seq<T>, p: T -> bool)
    requires forall x | x in s :: p(x)
    ensures Filter(s, p) == s
  {
    if s != [] {
      FilterAll(s[1..], p);
      assert s == [s[0]] + s[1..];
    }
  }

  lemma {:induction false} FilterNone<T>(s: seq<T>, p: T -> bool)
    requires forall x | x in s :: !p(x)
    ensures Filter(s, p) == []
  {
    if s != [] { FilterNone(s[1..], p); }
  }

  lemma {:induction false} FilterDistinct<T>(s: seq<T>, p: T -> bool)
    requires forall i, j | 0 <= i < j < |s| :: s[i] != s[j]
    ensures forall i, j | 0 <= i < j < |Filter(s, p)| :: Filter(s, p)[i] != Filter(s, p)[j]
  {
    if s != [] {
      assert forall i | 0 < i < |s| :: s[i] == s[1..][i - 1];
      FilterDistinct(s[1..], p);
      FilterMembers(s[1..], p);
    }
  }

  lemma {:induction false} FilterCount<T>(s: seq<T>, p: T -> bool, x: T)
    ensures multiset(Filter(s, p))[x] == if p(x) then multiset(s)[x] else 0
  {
    if s != [] {
      assert s == [s[0]] + s[1..];
      FilterCount(s[1..], p, x);
    }
  }

  /** Tests that agree on a list filter it alike. */
  lemma {:induction false} FilterSame<T>(s: seq<T>, p: T -> bool, q: T -> bool)
    requires forall x | x in s :: p(x) == q(x)
    ensures Filter(s, p) == Filter(s, q)
  {
    if s != [] { FilterSame(s[1..], p, q); }
  }

  /** Two filters may change places. */
  lemma {:induction false} FilterSwap<T>(s: seq<T>, p: T -> bool, q: T -> bool)
    ensures Filter(Filter(s, p), q) == Filter(Filter(s, q), p)
  {
    if s != [] {
      var x, rest := s[0], s[1..];
      FilterSwap(rest, p, q);
      assert Filter(s, p) == if p(x) then [x] + Filter(rest, p) else Filter(rest, p);
      assert Filter(s, q) == if q(x) then [x] + Filter(rest, q) else Filter(rest, q);
      FilterCons(x, Filter(rest, p), q);
      FilterCons(x, Filter(rest, q), p);
    }
  }

  lemma KeptIsMember<T>(s: seq<T>, p: T -> bool, x: T)
    requires x in Filter(s, p)
    ensures x in s && p(x)
  {
    FilterMembers(s, p);
  }

  lemma {:induction false} FilterSorted<T>(s: seq<T>, p: T -> bool, le: (T, T) -> bool)
    requires SortedBy(s, le)
    ensures SortedBy(Filter(s, p), le)
  {
    if s != [] {
      var x, rest := s[0], s[1..];
      assert forall i | 0 < i < |s| :: s[i] == rest[i - 1] && le(s[0], s[i]);
      FilterSorted(rest, p, le);
      FilterMembers(rest, p);
      var t := Filter(rest, p);
      assert Filter(s, p) == if p(x) then [x] + t else t;
      forall j | 0 <= j < |t| ensures le(x, t[j]) {
        KeptIsMember(rest, p, t[j]);
        var k :| 0 <= k < |rest| && rest[k] == t[j];
        assert s[k + 1] == t[j];
      }
    }
  }

  /** A weaker test keeps no fewer. */
  lemma {:induction false} FilterMore<T>(s: seq<T>, p: T -> bool, q: T -> bool)
    requires forall x | x in s :: p(x) ==> q(x)
    ensures |Filter(s, p)| <= |Filter(s, q)|
  {
    if s != [] { FilterMore(s[1..], p, q); }
  }

  /** Tests that exclude each other keep apart what either of them keeps. */
  lemma {:induction false} FilterParts<T>(s: seq<T>, p: T -> bool, q: T -> bool, r: T -> bool)
    requires forall x | x in s :: r(x) == (p(x) || q(x)) && !(p(x) && q(x))
    ensures |Filter(s, r)| == |Filter(s, p)| + |Filter(s, q)|
  {
    if s != [] { FilterParts(s[1..], p, q, r); }
  }

  // ---- stability ----

  /** `p` cannot tell equivalent elements apart. */
  ghost predicate Respects<T(!new)>(p: T -> bool, le: (T, T) -> bool) {
    forall a, b :: p(a) && p(b) ==> le(a, b) && le(b, a)
  }

  lemma SwapFilter<T>(x: T, y: T, s: seq<T>, p: T -> bool)
    requires !(p(x) && p(y))
    ensures Filter([y] + ([x] + s), p) == Filter([x] + ([y] + s), p)
  {
    FilterCons(y, [x] + s, p);
    FilterCons(x, s, p);
    FilterCons(x, [y] + s, p);
    FilterCons(y, s, p);
  }

  lemma {:induction false} InsertStable<T(!new)>(x: T, s: seq<T>, le: (T, T) -> bool, p: T -> bool)
    requires Respects(p, le)
    ensures Filter(Insert(x, s, le), p) == Filter([x] + s, p)
    decreases |s|
  {
    if s != [] && !le(x, s[0]) {
      var y, rest := s[0], s[1..];
      assert !(p(x) && p(y));
      hide Filter, Respects;
      calc {
        Filter(Insert(x, s, le), p);
        Filter([y] + Insert(x, rest, le), p);
        { FilterCons(y, Insert(x, rest, le), p); InsertStable(x, rest, le, p); FilterCons(y, [x] + rest, p); }
        Filter([y] + ([x] + rest), p);
        { SwapFilter(x, y, rest, p); }
        Filter([x] + ([y] + rest), p);
        { assert s == [y] + rest; }
        Filter([x] + s, p);
      }
    }
  }

  lemma {:induction false} SortStable<T(!new)>(s: seq<T>, le: (T, T) -> bool, p: T -> bool)
    requires Respects(p, le)
    ensures Filter(StableSort(s, le), p) == Filter(s, p)
  {
    if s != [] {
      SortStable(s[1..], le, p);
      var t := StableSort(s[1..], le);
      InsertStable(s[0], t, le, p);
      assert ([s[0]] + t)[1..] == t;
    }
  }

  /** A list that is already sorted is its own sort. */
  lemma {:induction false} SortOfSorted<T>(s: seq<T>, le: (T, T) -> bool)
    requires SortedBy(s, le)
    ensures StableSort(s, le) == s
  {
    if s != [] {
      SortOfSorted(s[1..], le);
      if |s| > 1 { assert le(s[0], s[1]); }
      assert s == [s[0]] + s[1..];
    }
  }

  /** The class of `a`: everything tied with it. */
  function Class<T>(a: T, le: (T, T) -> bool): T -> bool {
    x => le(a, x) && le(x, a)
  }

  /** Two sorted lists with the same elements in every tie class, in the same order, are the same list. */
  lemma {:induction false} SortedUnique<T(!new)>(s: seq<T>, t: seq<T>, le: (T, T) -> bool)
    requires TotalPreorder(le) && SortedBy(s, le) && SortedBy(t, le)
    requires forall a :: Filter(s, Class(a, le)) == Filter(t, Class(a, le))
    ensures s == t
  {
    if s == [] || t == [] {
      if t != [] {
        FilterMembers(t, Class(t[0], le));
        assert false;
      }
      if s != [] {
        FilterMembers(s, Class(s[0], le));
        assert false;
      }
    } else {
      FilterMembers(s, Class(t[0], le));
      FilterMembers(t, Class(s[0], le));
      assert t[0] in Filter(t, Class(t[0], le)) by { FilterMembers(t, Class(t[0], le)); }
      assert s[0] in Filter(s, Class(s[0], le)) by { FilterMembers(s, Class(s[0], le)); }
      assert le(s[0], t[0]) && le(t[0], s[0]);
      var p := Class(s[0], le);
      assert Filter(s, p)[0] == s[0] && Filter(t, p)[0] == t[0];
      forall a ensures Filter(s[1..], Class(a, le)) == Filter(t[1..], Class(a, le)) {
        var q := Class(a, le);
        assert Filter(s, q) == Filter(t, q);
        assert q(s[0]) == q(t[0]);
        if q(s[0]) {
          assert Filter(s, q)[1..] == Filter(s[1..], q);
          assert Filter(t, q)[1..] == Filter(t[1..], q);
        } else {
          assert Filter(s, q) == Filter(s[1..], q) && Filter(t, q) == Filter(t[1..], q);
        }
      }
      SortedUnique(s[1..], t[1..], le);
      assert s == [s[0]] + s[1..] && t == [t[0]] + t[1..];
    }
  }

  /** A filtered list is sorted by filtering the sorted list. */
  lemma SortFilter<T(!new)>(s: seq<T>, le: (T, T) -> bool, p: T -> bool)
    requires TotalPreorder(le)
    ensures StableSort(Filter(s, p), le) == Filter(StableSort(s, le), p)
  {
    hide StableSort, Filter;
    var t := StableSort(s, le);
    SortSorted(s, le);
    SortSorted(Filter(s, p), le);
    FilterSorted(t, p, le);
    forall a ensures Filter(StableSort(Filter(s, p), le), Class(a, le)) == Filter(Filter(t, p), Class(a, le)) {
      var c := Class(a, le);
      ClassRespects(a, le);
      SortStable(Filter(s, p), le, c);
      SortStable(s, le, c);
      FilterSwap(s, p, c);
      FilterSwap(t, p, c);
    }
    SortedUnique(StableSort(Filter(s, p), le), Filter(t, p), le);
  }

  // ---- positions ----

  /** Where element `i` ends up: after everything strictly smaller, and after its earlier ties. */
  function Place<T>(s: seq<T>, i: nat, le: (T, T) -> bool): nat
    requires i < |s|
  {
    |Filter(s, e => !le(s[i], e))| + |Filter(s[..i], Class(s[i], le))|
  }

  function InsertPos<T>(x: T, s: seq<T>, le: (T, T) -> bool): (p: nat)
    ensures p <= |s|
  {
    if s == [] || le(x, s[0]) then 0 else 1 + InsertPos(x, s[1..], le)
  }

  lemma {:induction false} InsertAt<T>(x: T, s: seq<T>, le: (T, T) -> bool)
    ensures var p := InsertPos(x, s, le); Insert(x, s, le) == s[..p] + [x] + s[p..]
  {
    if s != [] && !le(x, s[0]) {
      InsertAt(x, s[1..], le);
      var p := InsertPos(x, s[1..], le);
      assert s[..p + 1] == [s[0]] + s[1..][..p] && s[p + 1..] == s[1..][p..];
    }
  }

  /** In a sorted list the insertion point separates what is strictly smaller from the rest. */
  lemma {:induction false} InsertPosSplits<T(!new)>(x: T, s: seq<T>, le: (T, T) -> bool)
    requires TotalPreorder(le) && SortedBy(s, le)
    ensures InsertPos(x, s, le) == |Filter(s, e => !le(x, e))|
    ensures forall k | 0 <= k < |s| :: k < InsertPos(x, s, le) <==> !le(x, s[k])
  {
    if s != [] {
      if le(x, s[0]) {
        FilterNone(s, e => !le(x, e));
      } else {
        InsertPosSplits(x, s[1..], le);
        assert forall k | 0 < k < |s| :: s[k] == s[1..][k - 1];
      }
    }
  }

  lemma {:induction false} InsertCount<T>(x: T, s: seq<T>, le: (T, T) -> bool, p: T -> bool)
    ensures |Filter(Insert(x, s, le), p)| == |Filter([x] + s, p)|
  {
    FilterCons(x, s, p);
    if s != [] && !le(x, s[0]) {
      InsertCount(x, s[1..], le, p);
      FilterCons(x, s[1..], p);
      FilterCons(s[0], Insert(x, s[1..], le), p);
    }
  }

  lemma {:induction false} SortCount<T>(s: seq<T>, le: (T, T) -> bool, p: T -> bool)
    ensures |Filter(StableSort(s, le), p)| == |Filter(s, p)|
  {
    if s != [] {
      SortCount(s[1..], le, p);
      InsertCount(s[0], StableSort(s[1..], le), le, p);
      FilterCons(s[0], StableSort(s[1..], le), p);
    }
  }

  lemma PlaceOfHead<T>(s: seq<T>, le: (T, T) -> bool)
    requires s != [] && le(s[0], s[0])
    ensures Place(s, 0, le) == |Filter(s[1..], e => !le(s[0], e))|
  {
    assert s[..0] == [];
  }

  lemma PlaceOfTail<T(!new)>(s: seq<T>, i: nat, le: (T, T) -> bool)
    requires TotalPreorder(le) && 0 < i < |s|
    ensures Place(s, i, le) == Place(s[1..], i - 1, le) + if le(s[0], s[i]) then 1 else 0
  {
    assert s[..i] == [s[0]] + s[1..][..i - 1];
    FilterCons(s[0], s[1..][..i - 1], Class(s[i], le));
    FilterCons(s[0], s[1..], e => !le(s[i], e));
    assert s == [s[0]] + s[1..];
  }

  /** The sort puts every element at its place. */
  lemma {:induction false} SortPlaces<T(!new)>(s: seq<T>, i: nat, le: (T, T) -> bool)
    requires TotalPreorder(le) && i < |s|
    ensures Place(s, i, le) < |s| && |StableSort(s, le)| == |s|
    ensures StableSort(s, le)[Place(s, i, le)] == s[i]
  {
    hide Place, Filter;
    var x, t := s[0], StableSort(s[1..], le);
    var p := InsertPos(x, t, le);
    SortElements(s[1..], le);
    SortSorted(s[1..], le);
    InsertAt(x, t, le);
    InsertPosSplits(x, t, le);
    SortCount(s[1..], le, e => !le(x, e));
    if i == 0 {
      PlaceOfHead(s, le);
    } else {
      SortPlaces(s[1..], i - 1, le);
      PlaceOfTail(s, i, le);
    }
  }

  lemma {:induction false} DistinctOnce<T>(s: seq<T>)
    requires forall i, j | 0 <= i < j < |s| :: s[i] != s[j]
    ensures forall x | x in s :: multiset(s)[x] == 1
  {
    if s != [] {
      var x, rest := s[0], s[1..];
      assert s == [x] + rest;
      assert forall i | 0 <= i < |rest| :: rest[i] == s[i + 1] && rest[i] != x;
      DistinctOnce(rest);
    }
  }

  lemma {:induction false} OnceDistinct<T>(s: seq<T>)
    requires forall x | x in multiset(s) :: multiset(s)[x] == 1
    ensures forall i, j | 0 <= i < j < |s| :: s[i] != s[j]
  {
    if s != [] {
      var x, rest := s[0], s[1..];
      assert s == [x] + rest;
      assert multiset(s) == multiset{x} + multiset(rest);
      assert x in multiset(s) && multiset(s)[x] == 1;
      assert x !in multiset(rest);
      forall y | y in multiset(rest) ensures multiset(rest)[y] == 1 { assert y in multiset(s); }
      OnceDistinct(rest);
      assert forall i | 0 < i < |s| :: s[i] == rest[i - 1];
    }
  }

  lemma SortDistinct<T>(s: seq<T>, le: (T, T) -> bool)
    requires forall i, j | 0 <= i < j < |s| :: s[i] != s[j]
    ensures forall i, j | 0 <= i < j < |StableSort(s, le)| :: StableSort(s, le)[i] != StableSort(s, le)[j]
  {
    SortElements(s, le);
    SortMembers(s, le);
    DistinctOnce(s);
    OnceDistinct(StableSort(s, le));
  }

  /** The first `n` of a stable sort are the elements of place below `n`. */
  lemma FirstHaveLowestPlace<T(!new)>(s: seq<T>, i: nat, n: nat, le: (T, T) -> bool)
    requires TotalPreorder(le) && i < |s| && n <= |s| && |StableSort(s, le)| == |s|
    requires forall i, j | 0 <= i < j < |s| :: s[i] != s[j]
    ensures s[i] in StableSort(s, le)[..n] <==> Place(s, i, le) < n
  {
    hide Place, StableSort;
    SortPlaces(s, i, le);
    SortDistinct(s, le);
    var t := StableSort(s, le);
    if s[i] in t[..n] {
      var q :| 0 <= q < n && t[q] == s[i];
      assert q == Place(s, i, le);
    }
    if Place(s, i, le) < n { assert t[..n][Place(s, i, le)] == s[i]; }
  }

  /** The place of an element, counted before it and behind it. */
  lemma PlaceSplits<T(!new)>(s: seq<T>, i: nat, le: (T, T) -> bool)
    requires TotalPreorder(le) && i < |s|
    ensures Place(s, i, le) == |Filter(s[..i], e => le(e, s[i]))| + |Filter(s[i + 1..], e => !le(s[i], e))|
  {
    hide Filter;
    var x, before, after := s[i], s[..i], s[i + 1..];
    var newer := e => !le(x, e);
    assert s == before + ([x] + after);
    FilterConcat(before, [x] + after, newer);
    FilterConcat([x], after, newer);
    FilterNone([x], newer);
    FilterParts(before, newer, Class(x, le), e => le(e, x));
  }

  /** An element replaced by one that is not greater does not go further back. */
  lemma PlaceOfSmaller<T(!new)>(s: seq<T>, i: nat, x: T, le: (T, T) -> bool)
    requires TotalPreorder(le) && i < |s| && le(x, s[i])
    ensures Place(s[i := x], i, le) <= Place(s, i, le)
  {
    hide Filter, Place;
    var t := s[i := x];
    PlaceSplits(s, i, le);
    PlaceSplits(t, i, le);
    assert t[..i] == s[..i] && t[i + 1..] == s[i + 1..] && t[i] == x;
    FilterMore(s[..i], e => le(e, x), e => le(e, s[i]));
    FilterMore(s[i + 1..], e => !le(x, e), e => !le(s[i], e));
  }

  // ---- one more element ----

  lemma ClassRespects<T(!new)>(a: T, le: (T, T) -> bool)
    requires TotalPreorder(le)
    ensures Respects(Class(a, le), le)
  {
  }

  /** Where an element added at the end goes: behind everything that is not greater. */
  function EndPos<T>(s: seq<T>, x: T, le: (T, T) -> bool): (p: nat)
    ensures p <= |s|
  {
    if s == [] || !le(s[0], x) then 0 else 1 + EndPos(s[1..], x, le)
  }

  lemma {:induction false} EndPosSplits<T(!new)>(s: seq<T>, x: T, le: (T, T) -> bool)
    requires TotalPreorder(le) && SortedBy(s, le)
    ensures forall k | 0 <= k < |s| :: k < EndPos(s, x, le) <==> le(s[k], x)
  {
    if s != [] && le(s[0], x) {
      EndPosSplits(s[1..], x, le);
      assert forall k | 0 < k < |s| :: s[k] == s[1..][k - 1];
    }
  }

  lemma PlacedIsSorted<T(!new)>(s: seq<T>, x: T, le: (T, T) -> bool)
    requires TotalPreorder(le) && SortedBy(s, le)
    ensures var p := EndPos(s, x, le); SortedBy(s[..p] + ([x] + s[p..]), le)
  {
    EndPosSplits(s, x, le);
  }

  lemma PlacedKeepsClasses<T(!new)>(s: seq<T>, x: T, le: (T, T) -> bool, a: T)
    requires TotalPreorder(le) && SortedBy(s, le)
    ensures var p := EndPos(s, x, le);
            Filter(s[..p] + ([x] + s[p..]), Class(a, le)) == Filter(s + [x], Class(a, le))
  {
    hide Filter;
    var p, c := EndPos(s, x, le), Class(a, le);
    EndPosSplits(s, x, le);
    FilterConcat(s[..p], [x] + s[p..], c);
    FilterConcat([x], s[p..], c);
    assert s == s[..p] + s[p..];
    FilterConcat(s, [x], c);
    FilterConcat(s[..p], s[p..], c);
    if c(x) { FilterNone(s[p..], c); } else { FilterNone([x], c); }
    var before, one, after := Filter(s[..p], c), Filter([x], c), Filter(s[p..], c);
    assert before + (one + after) == (before + after) + one;
  }

  lemma SortAppend<T(!new)>(s: seq<T>, x: T, le: (T, T) -> bool)
    requires TotalPreorder(le) && SortedBy(s, le)
    ensures var p := EndPos(s, x, le); StableSort(s + [x], le) == s[..p] + ([x] + s[p..])
  {
    hide StableSort, Filter;
    var p := EndPos(s, x, le);
    PlacedIsSorted(s, x, le);
    SortSorted(s + [x], le);
    forall a ensures Filter(StableSort(s + [x], le), Class(a, le)) == Filter(s[..p] + ([x] + s[p..]), Class(a, le)) {
      ClassRespects(a, le);
      SortStable(s + [x], le, Class(a, le));
      PlacedKeepsClasses(s, x, le, a);
    }
    SortedUnique(StableSort(s + [x], le), s[..p] + ([x] + s[p..]), le);
  }

  /** Sorting first changes nothing for an element that is added at the end. */
  lemma SortBeforeAppend<T(!new)>(s: seq<T>, x: T, le: (T, T) -> bool)
    requires TotalPreorder(le)
    ensures StableSort(s + [x], le) == StableSort(StableSort(s, le) + [x], le)
  {
    hide StableSort, Filter;
    var t := StableSort(s, le);
    SortSorted(s + [x], le);
    SortSorted(t + [x], le);
    forall a ensures Filter(StableSort(s + [x], le), Class(a, le)) == Filter(StableSort(t + [x], le), Class(a, le)) {
      var c := Class(a, le);
      ClassRespects(a, le);
      SortStable(s + [x], le, c);
      SortStable(t + [x], le, c);
      SortStable(s, le, c);
      FilterConcat(s, [x], c);
      FilterConcat(t, [x], c);
    }
    SortedUnique(StableSort(s + [x], le), StableSort(t + [x], le), le);
  }

  function Take<T>(s: seq<T>, n: nat): seq<T> { if |s| <= n then s else s[..n] }

  lemma {:induction false} EndPosOfTake<T>(s: seq<T>, n: nat, x: T, le: (T, T) -> bool)
    ensures EndPos(Take(s, n), x, le) == if EndPos(s, x, le) <= n then EndPos(s, x, le) else n
  {
    if s != [] && n > 0 && le(s[0], x) {
      EndPosOfTake(s[1..], n - 1, x, le);
      assert Take(s, n)[1..] == Take(s[1..], n - 1);
    }
  }

  lemma TakePlaced<T>(s: seq<T>, n: nat, x: T, p: nat)
    requires p <= |s|
    ensures var t, q := Take(s, n), if p <= n then p else n;
            q <= |t| && Take(s[..p] + ([x] + s[p..]), n) == Take(t[..q] + ([x] + t[q..]), n)
  {
    var t, q := Take(s, n), if p <= n then p else n;
    var a, b := s[..p] + ([x] + s[p..]), t[..q] + ([x] + t[q..]);
    assert forall k | 0 <= k < n && k < |a| :: k < |b| && a[k] == b[k];
  }

  /** The first `n` after one more element depend only on the first `n` before it. */
  lemma TakeAppend<T(!new)>(s: seq<T>, n: nat, x: T, le: (T, T) -> bool)
    requires TotalPreorder(le)
    ensures Take(StableSort(s + [x], le), n) == Take(StableSort(Take(StableSort(s, le), n) + [x], le), n)
  {
    hide StableSort;
    var t := StableSort(s, le);
    SortSorted(s, le);
    SortBeforeAppend(s, x, le);
    SortAppend(t, x, le);
    SortAppend(Take(t, n), x, le);
    EndPosOfTake(t, n, x, le);
    TakePlaced(t, n, x, EndPos(t, x, le));
  }

  /** The first `n`, when `x` stands at place `q` of one list and `r` of another: they are the same exactly when `x`
      stands at the same place, or behind them in both and the others are the same. */
  lemma TakesAgreeIff<T>(s: seq<T>, t: seq<T>, x: T, q: nat, r: nat, n: nat)
    requires q <= |s| && r <= |t| && x !in s && x !in t
    requires n > 0 ==> Take(s, n - 1) == Take(t, n - 1)
    ensures Take(s[..q] + ([x] + s[q..]), n) == Take(t[..r] + ([x] + t[r..]), n)
       <==> if q < n || r < n then q == r else Take(s, n) == Take(t, n)
  {
    var a, b := Take(s[..q] + ([x] + s[q..]), n), Take(t[..r] + ([x] + t[r..]), n);
    if q < n || r < n {
      if q == r {
        PlacedTake(s, x, q, n);
        PlacedTake(t, x, r, n);
      } else if q < r {
        assert a[q] == x;
        if q < |b| { assert b[q] == t[q]; }
      } else {
        assert b[r] == x;
        if r < |a| { assert a[r] == s[r]; }
      }
    } else {
      assert a == Take(s, n) && b == Take(t, n);
    }
  }

  lemma PlacedTake<T>(s: seq<T>, x: T, q: nat, n: nat)
    requires q <= |s| && q < n
    ensures var t := Take(s, n - 1); q <= |t| && Take(s[..q] + ([x] + s[q..]), n) == t[..q] + ([x] + t[q..])
  {
  }

  lemma {:induction false} OneFails<T>(s: seq<T>, p: T -> bool)
    requires forall i, j | 0 <= i < j < |s| :: p(s[i]) || p(s[j])
    ensures |Filter(s, p)| + 1 >= |s|
  {
    if s != [] {
      var rest := s[1..];
      assert forall i | 0 < i < |s| :: s[i] == rest[i - 1];
      if p(s[0]) {
        OneFails(rest, p);
      } else {
        assert forall x | x in rest :: p(x);
        FilterAll(rest, p);
      }
    }
  }

  /** Dropping one element moves up one at most. */
  lemma TakeFiltered<T>(s: seq<T>, p: T -> bool, n: nat)
    requires forall i, j | 0 <= i < j < |s| :: p(s[i]) || p(s[j])
    ensures n > 0 ==> Take(Filter(s, p), n - 1) == Take(Filter(Take(s, n), p), n - 1)
    ensures (forall x | x in Take(s, n) :: p(x)) ==> Take(Filter(s, p), n) == Take(s, n)
  {
    hide Filter;
    if |s| > n {
      var front := s[..n];
      assert s == front + s[n..];
      FilterConcat(front, s[n..], p);
      OneFails(front, p);
      if forall x | x in front :: p(x) { FilterAll(front, p); }
    } else {
      if forall x | x in s :: p(x) { FilterAll(s, p); }
    }
  }

  lemma FilterMiddle<T>(before: seq<T>, x: T, after: seq<T>, p: T -> bool)
    requires (forall y | y in before :: p(y)) && !p(x) && (forall y | y in after :: p(y))
    ensures Filter(before + ([x] + after), p) == before + after
  {
    hide Filter;
    FilterConcat(before, [x] + after, p);
    FilterConcat([x], after, p);
    FilterAll(before, p);
    FilterAll(after, p);
    FilterNone([x], p);
  }

  /** A list without its one element at `q`. */
  lemma FilterOut<T>(s: seq<T>, q: nat, p: T -> bool)
    requires q < |s| && !p(s[q]) && forall i | 0 <= i < |s| && i != q :: p(s[i])
    ensures Filter(s, p) == s[..q] + s[q + 1..]
  {
    hide Filter;
    var before, after := s[..q], s[q + 1..];
    assert s == before + ([s[q]] + after);
    forall i | 0 <= i < |after| ensures p(after[i]) { assert after[i] == s[q + 1 + i]; }
    FilterMiddle(before, s[q], after, p);
  }
}
