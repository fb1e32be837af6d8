/**
 `sort_by` and `sort_by_key` of the standard library: a stable sort by a total preorder `le`.
 */
module StableSort {

  ghost predicate TotalPreorder<T(!new)>(le: (T, T) -> bool) {
    && (forall x, y :: le(x, y) || le(y, x))
    && (forall x, y, z :: le(x, y) && le(y, z) ==> le(x, z))
  }

  ghost predicate Sorted<T>(s: seq<T>, le: (T, T) -> bool) {
    forall i, j :: 0 <= i < j < |s| ==> le(s[i], s[j])
  }

  function Insert<T>(x: T, s: seq<T>, le: (T, T) -> bool): seq<T> {
    if s == [] || le(x, s[0]) then [x] + s else [s[0]] + Insert(x, s[1..], le)
  }

  function Sort<T>(xs: seq<T>, le: (T, T) -> bool): seq<T> {
    if xs == [] then [] else Insert(xs[0], Sort(xs[1..], le), le)
  }

  function Filter<T>(xs: seq<T>, p: T -> bool): seq<T> {
    if xs == [] then [] else (if p(xs[0]) then [xs[0]] else []) + Filter(xs[1..], p)
  }

  /** `entries.sort_by(...)`, from the back by insertion. */
  method SortBy<T>(xs: seq<T>, le: (T, T) -> bool) returns (r: seq<T>)
    ensures r == Sort(xs, le)
  {
    r := [];
    var i := |xs|;
    assert xs[i..] == [];
    while i > 0
      invariant 0 <= i <= |xs|
      invariant r == Sort(xs[i..], le)
    {
      i := i - 1;
      assert xs[i..][0] == xs[i] && xs[i..][1..] == xs[i + 1..];
      r := InsertBy(xs[i], r, le);
    }
  }

  method InsertBy<T>(x: T, s: seq<T>, le: (T, T) -> bool) returns (r: seq<T>)
    ensures r == Insert(x, s, le)
  {
    var at := 0;
    while at < |s| && !le(x, s[at])
      invariant 0 <= at <= |s|
      invariant Insert(x, s, le) == s[..at] + Insert(x, s[at..], le)
    {
      assert s[at..][0] == s[at] && s[at..][1..] == s[at + 1..];
      at := at + 1;
    }
    r := s[..at] + [x] + s[at..];
  }

  lemma {:induction false} InsertMembers<T(!new)>(x: T, s: seq<T>, le: (T, T) -> bool)
    ensures forall y :: y in Insert(x, s, le) <==> y == x || y in s
    ensures multiset(Insert(x, s, le)) == multiset(s) + multiset{x}
  {
    if s != [] && !le(x, s[0]) {
      InsertMembers(x, s[1..], le);
      assert s == [s[0]] + s[1..];
    }
  }

  lemma {:induction false} InsertSorts<T(!new)>(x: T, s: seq<T>, le: (T, T) -> bool)
    requires TotalPreorder(le) && Sorted(s, le)
    ensures Sorted(Insert(x, s, le), le)
  {
    if s != [] {
      if le(x, s[0]) {
        forall i | 0 <= i < |s| ensures le(x, s[i]) {
          if i > 0 { assert le(s[0], s[i]); }
        }
      } else {
        var rest := Insert(x, s[1..], le);
        InsertSorts(x, s[1..], le);
        InsertMembers(x, s[1..], le);
        forall i | 0 <= i < |rest| ensures le(s[0], rest[i]) {
          assert rest[i] in rest;
          if rest[i] != x {
            var j :| 0 <= j < |s[1..]| && s[1..][j] == rest[i];
            assert le(s[0], s[1 + j]);
          }
        }
      }
    }
  }

  /** The result is sorted and has the same entries. */
  lemma {:induction false} SortSorts<T(!new)>(xs: seq<T>, le: (T, T) -> bool)
    requires TotalPreorder(le)
    ensures Sorted(Sort(xs, le), le) && multiset(Sort(xs, le)) == multiset(xs)
  {
    if xs != [] {
      SortSorts(xs[1..], le);
      InsertSorts(xs[0], Sort(xs[1..], le), le);
      InsertMembers(xs[0], Sort(xs[1..], le), le);
      assert xs == [xs[0]] + xs[1..];
    }
  }

  /** By an order without ties, a multiset has one sorted listing. */
  lemma {:induction false} SortedDetermined<T(!new)>(a: seq<T>, b: seq<T>, le: (T, T) -> bool)
    requires TotalPreorder(le) && forall x, y :: le(x, y) && le(y, x) ==> x == y
    requires Sorted(a, le) && Sorted(b, le) && multiset(a) == multiset(b)
    ensures a == b
    decreases |a|
  {
    assert |multiset(a)| == |a| && |multiset(b)| == |b|;
    if a != [] {
      assert a[0] in multiset(b) && b[0] in multiset(a);
      HeadIsLeast(a, b[0], le);
      HeadIsLeast(b, a[0], le);
      TailMultiset(a);
      TailMultiset(b);
      SortedDetermined(a[1..], b[1..], le);
      assert a == [a[0]] + a[1..] && b == [b[0]] + b[1..];
    }
  }

  lemma HeadIsLeast<T(!new)>(s: seq<T>, x: T, le: (T, T) -> bool)
    requires TotalPreorder(le) && Sorted(s, le) && x in s
    ensures le(s[0], x)
  {
    var i :| 0 <= i < |s| && s[i] == x;
    assert le(x, x);
  }

  lemma TailMultiset<T>(s: seq<T>)
    requires s != []
    ensures multiset(s[1..]) == multiset(s) - multiset{s[0]}
  {
    assert s == [s[0]] + s[1..];
  }

  lemma {:induction false} InsertFilter<T(!new)>(x: T, s: seq<T>, le: (T, T) -> bool, p: T -> bool)
    requires forall i :: 0 <= i < |s| && p(x) && p(s[i]) ==> le(x, s[i])
    ensures Filter(Insert(x, s, le), p) == (if p(x) then [x] else []) + Filter(s, p)
  {
    if s == [] || le(x, s[0]) {
      FilterCons(x, s, p);
    } else {
      var rest := Insert(x, s[1..], le);
      assert forall i :: 0 <= i < |s[1..]| ==> s[1..][i] == s[i + 1];
      InsertFilter(x, s[1..], le, p);
      assert Insert(x, s, le) == [s[0]] + rest;
      FilterCons(s[0], rest, p);
      SkipOne(if p(x) then [x] else [], if p(s[0]) then [s[0]] else [], Filter(s[1..], p));
    }
  }

  lemma SkipOne<T>(a: seq<T>, b: seq<T>, c: seq<T>)
    requires a == [] || b == []
    ensures b + (a + c) == a + (b + c)
  {
  }

  lemma FilterCons<T>(x: T, s: seq<T>, p: T -> bool)
    ensures Filter([x] + s, p) == (if p(x) then [x] else []) + Filter(s, p)
  {
    assert ([x] + s)[1..] == s;
  }

  /** Stability: entries that compare equal keep their relative order. */
  lemma {:induction false} SortStable<T(!new)>(xs: seq<T>, le: (T, T) -> bool, p: T -> bool)
    requires forall x, y :: p(x) && p(y) ==> le(x, y)
    ensures Filter(Sort(xs, le), p) == Filter(xs, p)
  {
    if xs != [] {
      SortStable(xs[1..], le, p);
      InsertFilter(xs[0], Sort(xs[1..], le), le, p);
    }
  }

  lemma {:induction false} FilterMembers<T(!new)>(xs: seq<T>, p: T -> bool)
    ensures forall x :: x in Filter(xs, p) <==> x in xs && p(x)
  {
    if xs != [] {
      FilterMembers(xs[1..], p);
      assert xs == [xs[0]] + xs[1..];
    }
  }

  /** `p` holds of everything at or before an entry it holds of. */
  ghost predicate DownClosed<T(!new)>(p: T -> bool, le: (T, T) -> bool) {
    forall x, y :: le(x, y) && p(y) ==> p(x)
  }

  lemma {:induction false} InsertUpTo<T(!new)>(x: T, s: seq<T>, le: (T, T) -> bool, p: T -> bool)
    requires TotalPreorder(le) && Sorted(s, le) && DownClosed(p, le)
    ensures Filter(Insert(x, s, le), p) == if p(x) then Insert(x, Filter(s, p), le) else Filter(s, p)
  {
    if s == [] || le(x, s[0]) {
      assert ([x] + s)[1..] == s;
      if p(x) && Filter(s, p) != [] {
        FilterMembers(s, p);
        assert Filter(s, p)[0] in s;
        var i :| 0 <= i < |s| && s[i] == Filter(s, p)[0];
        assert i > 0 ==> le(s[0], s[i]);
        assert le(x, Filter(s, p)[0]);
      }
    } else {
      InsertUpTo(x, s[1..], le, p);
      var rest := Insert(x, s[1..], le);
      assert ([s[0]] + rest)[1..] == rest;
      assert le(s[0], x);
      if p(x) {
        assert Filter(s, p) == [s[0]] + Filter(s[1..], p);
        assert Filter(s, p)[1..] == Filter(s[1..], p);
      }
    }
  }

  /** Dropping the largest entries first and then sorting is sorting and then dropping them. */
  lemma {:induction false} SortOfFilter<T(!new)>(xs: seq<T>, le: (T, T) -> bool, p: T -> bool)
    requires TotalPreorder(le) && DownClosed(p, le)
    ensures Sort(Filter(xs, p), le) == Filter(Sort(xs, le), p)
  {
    if xs != [] {
      SortOfFilter(xs[1..], le, p);
      SortSorts(xs[1..], le);
      InsertUpTo(xs[0], Sort(xs[1..], le), le, p);
      if p(xs[0]) {
        assert Filter(xs, p)[1..] == Filter(xs[1..], p);
      } else {
        assert Filter(xs, p) == Filter(xs[1..], p);
      }
    }
  }

  /** In a sorted list, the entries that satisfy `p` come first. */
  lemma {:induction false} FilterIsPrefix<T(!new)>(s: seq<T>, le: (T, T) -> bool, p: T -> bool)
    requires Sorted(s, le) && DownClosed(p, le)
    ensures Filter(s, p) <= s
  {
    if s != [] {
      FilterIsPrefix(s[1..], le, p);
      if !p(s[0]) {
        forall i | 0 <= i < |s| ensures !p(s[i]) {
          assert i > 0 ==> le(s[0], s[i]);
        }
        FilterNone(s, p);
      }
    }
  }

  lemma {:induction false} FilterNone<T(!new)>(s: seq<T>, p: T -> bool)
    requires forall i :: 0 <= i < |s| ==> !p(s[i])
    ensures Filter(s, p) == []
  {
    if s != [] { FilterNone(s[1..], p); }
  }
}
