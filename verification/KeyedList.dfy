/**
 src/config/merge.rs, `replace_by_identity` and `remove_by_identity`: ordered lists that stand in for maps.
 An identity test compares one key of the two entries.
 */
module KeyedList {
  import opened Text

  predicate Distinct<T, K(==)>(xs: seq<T>, key: T -> K) {
    forall i, j :: 0 <= i < j < |xs| ==> key(xs[i]) != key(xs[j])
  }

  /** The first entry with key `k`. */
  function Find<T, K(==)>(xs: seq<T>, k: K, key: T -> K): Option<T> {
    if xs == [] then None else if key(xs[0]) == k then Some(xs[0]) else Find(xs[1..], k, key)
  }

  /** The first entry with the key of `e` becomes `e`; without one, `e` goes to the end. */
  function Replace<T, K(==)>(xs: seq<T>, e: T, key: T -> K): seq<T> {
    if xs == [] then [e] else if key(xs[0]) == key(e) then [e] + xs[1..] else [xs[0]] + Replace(xs[1..], e, key)
  }

  /** The entries whose key is not `k`, in order. */
  function Remove<T, K(==)>(xs: seq<T>, k: K, key: T -> K): seq<T> {
    if xs == [] then [] else (if key(xs[0]) == k then [] else [xs[0]]) + Remove(xs[1..], k, key)
  }

  /** `replace_by_identity`: the position of a match is overwritten, or the entry is pushed. */
  method ReplaceByIdentity<T, K(==)>(xs: seq<T>, e: T, key: T -> K) returns (r: seq<T>)
    ensures r == Replace(xs, e, key)
  {
    var position := 0;
    while position < |xs| && key(xs[position]) != key(e)
      invariant 0 <= position <= |xs|
      invariant Replace(xs, e, key) == xs[..position] + Replace(xs[position..], e, key)
    {
      assert xs[position..][0] == xs[position] && xs[position..][1..] == xs[position + 1..];
      position := position + 1;
    }
    if position < |xs| {
      assert xs[position..][1..] == xs[position + 1..];
      r := xs[position := e];
    } else {
      r := xs + [e];
    }
  }

  /** `remove_by_identity`: `retain` keeps the entries that do not match. */
  method RemoveByIdentity<T, K(==)>(xs: seq<T>, k: K, key: T -> K) returns (r: seq<T>)
    ensures r == Remove(xs, k, key)
  {
    r := [];
    assert xs[0..] == xs;
    for i := 0 to |xs|
      invariant Remove(xs, k, key) == r + Remove(xs[i..], k, key)
    {
      assert xs[i..][0] == xs[i] && xs[i..][1..] == xs[i + 1..];
      if key(xs[i]) != k {
        r := r + [xs[i]];
      }
    }
  }

  // ----- lists against maps -----

  lemma {:induction false} FindMember<T, K>(xs: seq<T>, k: K, key: T -> K)
    ensures Find(xs, k, key).Some? <==> exists i :: 0 <= i < |xs| && key(xs[i]) == k
    ensures Find(xs, k, key).Some? ==> Find(xs, k, key).value in xs && key(Find(xs, k, key).value) == k
  {
    if xs != [] {
      FindMember(xs[1..], k, key);
      assert xs == [xs[0]] + xs[1..];
      if exists i :: 0 <= i < |xs| && key(xs[i]) == k {
        var i :| 0 <= i < |xs| && key(xs[i]) == k;
        assert i > 0 ==> key(xs[1..][i - 1]) == k;
      }
    }
  }

  lemma {:induction false} FindOfDistinct<T, K>(xs: seq<T>, x: T, key: T -> K)
    requires Distinct(xs, key)
    ensures x in xs <==> Find(xs, key(x), key) == Some(x)
  {
    if xs != [] {
      assert Distinct(xs[1..], key);
      FindOfDistinct(xs[1..], x, key);
      assert xs == [xs[0]] + xs[1..];
      if x in xs[1..] {
        var i :| 0 <= i < |xs[1..]| && xs[1..][i] == x;
        assert key(xs[0]) != key(xs[1 + i]);
      }
    }
  }

  lemma {:induction false} ReplaceRefines<T(!new), K(!new)>(xs: seq<T>, e: T, key: T -> K)
    requires Distinct(xs, key)
    ensures Distinct(Replace(xs, e, key), key)
    ensures forall k :: Find(Replace(xs, e, key), k, key) == if k == key(e) then Some(e) else Find(xs, k, key)
    ensures forall x :: x in Replace(xs, e, key) ==> x == e || x in xs
  {
    if xs != [] {
      assert Distinct(xs[1..], key);
      assert xs == [xs[0]] + xs[1..];
      if key(xs[0]) == key(e) {
        assert Replace(xs, e, key)[1..] == xs[1..];
      } else {
        var rest := Replace(xs[1..], e, key);
        ReplaceRefines(xs[1..], e, key);
        assert Replace(xs, e, key)[1..] == rest;
        forall i | 0 <= i < |rest| ensures key(rest[i]) != key(xs[0]) {
          assert rest[i] in rest;
          if rest[i] in xs[1..] {
            var j :| 0 <= j < |xs[1..]| && xs[1..][j] == rest[i];
            assert key(xs[0]) != key(xs[1 + j]);
          }
        }
      }
    } else {
      assert [e][1..] == [];
    }
  }

  lemma {:induction false} RemoveMembers<T(!new), K>(xs: seq<T>, k: K, key: T -> K)
    ensures forall x :: x in Remove(xs, k, key) <==> x in xs && key(x) != k
  {
    if xs != [] {
      RemoveMembers(xs[1..], k, key);
      assert xs == [xs[0]] + xs[1..];
    }
  }

  lemma {:induction false} RemoveKeepsDistinct<T(!new), K>(xs: seq<T>, k: K, key: T -> K)
    requires Distinct(xs, key)
    ensures Distinct(Remove(xs, k, key), key)
  {
    if xs != [] {
      var rest := Remove(xs[1..], k, key);
      RemoveKeepsDistinct(xs[1..], k, key);
      RemoveMembers(xs[1..], k, key);
      forall i | 0 <= i < |rest| ensures key(rest[i]) != key(xs[0]) {
        assert rest[i] in rest;
        var j :| 0 <= j < |xs[1..]| && xs[1..][j] == rest[i];
        assert key(xs[0]) != key(xs[1 + j]);
      }
    }
  }

  lemma {:induction false} FindAfterRemove<T(!new), K(!new)>(xs: seq<T>, k: K, key: T -> K, j: K)
    ensures Find(Remove(xs, k, key), j, key) == if j == k then None else Find(xs, j, key)
  {
    if xs != [] {
      FindAfterRemove(xs[1..], k, key, j);
      var rest := Remove(xs[1..], k, key);
      if key(xs[0]) == k {
        assert Remove(xs, k, key) == rest;
      } else {
        assert Remove(xs, k, key)[1..] == rest;
      }
    }
  }

  lemma RemoveRefines<T(!new), K(!new)>(xs: seq<T>, k: K, key: T -> K)
    requires Distinct(xs, key)
    ensures Distinct(Remove(xs, k, key), key)
    ensures forall j :: Find(Remove(xs, k, key), j, key) == if j == k then None else Find(xs, j, key)
  {
    RemoveKeepsDistinct(xs, k, key);
    forall j ensures Find(Remove(xs, k, key), j, key) == if j == k then None else Find(xs, j, key) {
      FindAfterRemove(xs, k, key, j);
    }
  }

  /** Removing by another property than the key takes away exactly the entries that have it. */
  lemma {:induction false} RemoveByProperty<T(!new), K(!new), P>(xs: seq<T>, p: P, property: T -> P, k: K, key: T -> K)
    requires Distinct(xs, key)
    ensures Distinct(Remove(xs, p, property), key)
    ensures Find(Remove(xs, p, property), k, key)
            == match Find(xs, k, key) case None => None case Some(x) => if property(x) == p then None else Some(x)
  {
    if xs != [] {
      var rest := Remove(xs[1..], p, property);
      assert Distinct(xs[1..], key);
      RemoveByProperty(xs[1..], p, property, k, key);
      RemoveMembers(xs[1..], p, property);
      FindMember(xs[1..], k, key);
      if property(xs[0]) == p {
        assert Remove(xs, p, property) == rest;
        if key(xs[0]) == k {
          assert forall i :: 0 <= i < |xs[1..]| ==> key(xs[1..][i]) == key(xs[1 + i]);
        }
      } else {
        assert Remove(xs, p, property)[1..] == rest;
        forall i | 0 <= i < |rest| ensures key(rest[i]) != key(xs[0]) {
          assert rest[i] in rest;
          var j :| 0 <= j < |xs[1..]| && xs[1..][j] == rest[i];
          assert key(xs[0]) != key(xs[1 + j]);
        }
      }
    }
  }

  lemma {:induction false} ReplaceAppends<T, K>(xs: seq<T>, e: T, key: T -> K)
    requires Find(xs, key(e), key).None?
    ensures Replace(xs, e, key) == xs + [e]
  {
    if xs != [] {
      ReplaceAppends(xs[1..], e, key);
    }
  }

  // ----- runs -----

  datatype Op<+T, +K> = Put(entry: T) | Drop(key: K)

  function Apply<T, K(==)>(xs: seq<T>, op: Op<T, K>, key: T -> K): seq<T> {
    match op
    case Put(e) => Replace(xs, e, key)
    case Drop(k) => Remove(xs, k, key)
  }

  function ApplyAll<T, K(==)>(xs: seq<T>, ops: seq<Op<T, K>>, key: T -> K): seq<T> {
    if ops == [] then xs else Apply(ApplyAll(xs, ops[..|ops| - 1], key), ops[|ops| - 1], key)
  }

  /** What a map would hold: the last write of `k`, unless it was dropped after that. */
  function LastWrite<T, K(==)>(ops: seq<Op<T, K>>, k: K, key: T -> K): Option<T> {
    if ops == [] then None
    else
      match ops[|ops| - 1]
      case Put(e) => if key(e) == k then Some(e) else LastWrite(ops[..|ops| - 1], k, key)
      case Drop(d) => if d == k then None else LastWrite(ops[..|ops| - 1], k, key)
  }

  /**
   A keyed list refines a map: after any sequence of writes and removals it holds at most one entry per key,
   namely the last one written after the last removal.
   */
  lemma {:induction false} KeyedListRefinesMap<T(!new), K(!new)>(ops: seq<Op<T, K>>, key: T -> K)
    ensures Distinct(ApplyAll([], ops, key), key)
    ensures forall k :: Find(ApplyAll([], ops, key), k, key) == LastWrite(ops, k, key)
  {
    if ops != [] {
      var before := ops[..|ops| - 1];
      KeyedListRefinesMap(before, key);
      match ops[|ops| - 1]
      case Put(e) => ReplaceRefines(ApplyAll([], before, key), e, key);
      case Drop(k) => RemoveRefines(ApplyAll([], before, key), k, key);
    }
  }

  lemma {:induction false} ApplyConcat<T, K>(xs: seq<T>, a: seq<Op<T, K>>, b: seq<Op<T, K>>, key: T -> K)
    ensures ApplyAll(xs, a + b, key) == ApplyAll(ApplyAll(xs, a, key), b, key)
  {
    if b == [] {
      assert a + b == a;
    } else {
      assert (a + b)[..|a + b| - 1] == a + b[..|b| - 1];
      ApplyConcat(xs, a, b[..|b| - 1], key);
    }
  }

  // ----- lists without repetition -----

  function Itself<T>(x: T): T { x }

  /** `append_unique`: the values that are not there yet go to the end, in order. */
  function Union<T(==)>(xs: seq<T>, values: seq<T>): seq<T> {
    if values == [] then xs
    else
      var r := Union(xs, values[..|values| - 1]);
      if values[|values| - 1] in r then r else r + [values[|values| - 1]]
  }

  method AppendUnique<T(==)>(target: seq<T>, values: seq<T>) returns (r: seq<T>)
    ensures r == Union(target, values)
  {
    r := target;
    for i := 0 to |values|
      invariant r == Union(target, values[..i])
    {
      assert values[..i + 1][..i] == values[..i];
      if values[i] !in r {
        r := r + [values[i]];
      }
    }
    assert values[..|values|] == values;
  }

  /** Replacing by the whole entry is the same: an entry that is there stays where it is. */
  lemma {:induction false} ReplaceItself<T>(xs: seq<T>, e: T)
    ensures Replace(xs, e, Itself) == if e in xs then xs else xs + [e]
  {
    if xs != [] {
      ReplaceItself(xs[1..], e);
      assert xs == [xs[0]] + xs[1..];
    }
  }

  lemma {:induction false} UnionConcat<T>(xs: seq<T>, a: seq<T>, b: seq<T>)
    ensures Union(xs, a + b) == Union(Union(xs, a), b)
  {
    if b == [] {
      assert a + b == a;
    } else {
      assert (a + b)[..|a + b| - 1] == a + b[..|b| - 1];
      UnionConcat(xs, a, b[..|b| - 1]);
    }
  }

  /** The union keeps what was there as its front, adds exactly the new values, and repeats nothing. */
  lemma {:induction false} UnionIsUnion<T(!new)>(xs: seq<T>, values: seq<T>)
    requires Distinct(xs, Itself)
    ensures xs <= Union(xs, values) && Distinct(Union(xs, values), Itself)
    ensures forall x :: x in Union(xs, values) <==> x in xs || x in values
  {
    if values != [] {
      UnionIsUnion(xs, values[..|values| - 1]);
      assert values == values[..|values| - 1] + [values[|values| - 1]];
    }
  }
}
