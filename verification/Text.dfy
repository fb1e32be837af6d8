/**
 Strings and the two orders on them that the program relies on.

 A Rust `String` is modelled as the sequence of its UTF-8 bytes, each written as the Dafny `char` with
 the byte's value, so `|s|` is `s.len()` and `Less` is the byte-wise order of `str::cmp`.
 */
module Text {

  datatype Option<+T> = None | Some(value: T)

  datatype Result<+T> = Ok(value: T) | Err

  // ----- decimal numerals -----

  predicate IsDigit(c: char) {
    '0' <= c <= '9'
  }

  /** No character of `r` can prolong a numeral written just before it. */
  predicate NonDigitStart(r: string) {
    r != [] ==> !IsDigit(r[0])
  }

  function DigitChar(d: nat): (c: char)
    requires d < 10
    ensures IsDigit(c) && c as int == '0' as int + d
  {
    ('0' as int + d) as char
  }

  /** `to_string` of an unsigned integer. */
  function Dec(n: nat): (s: string)
    ensures s != [] && forall i :: 0 <= i < |s| ==> IsDigit(s[i])
  {
    if n < 10 then [DigitChar(n)] else Dec(n / 10) + [DigitChar(n % 10)]
  }

  /** `to_string` of a signed integer. */
  function DecInt(n: int): string {
    if n < 0 then "-" + Dec(-n) else Dec(n)
  }

  /** The number a numeral denotes, digit by digit. */
  function DecValue(s: string): int {
    if s == [] then 0 else 10 * DecValue(s[..|s| - 1]) + (s[|s| - 1] as int - '0' as int)
  }

  /** Reading a numeral back gives the number that was printed. */
  lemma {:induction false} DecRoundTrip(n: nat)
    ensures DecValue(Dec(n)) == n
  {
    if n < 10 {
      assert [DigitChar(n)][..0] == [];
      assert DecValue([DigitChar(n)][..0]) == 0;
    } else {
      DecRoundTrip(n / 10);
      assert Dec(n)[..|Dec(n)| - 1] == Dec(n / 10);
    }
  }

  lemma DecInjective(m: nat, n: nat)
    requires Dec(m) == Dec(n)
    ensures m == n
  {
    DecRoundTrip(m);
    DecRoundTrip(n);
  }

  /** A run of digits ends where the digits end. */
  lemma DigitRunUnique(p: string, x: string, q: string, y: string)
    requires forall i :: 0 <= i < |p| ==> IsDigit(p[i])
    requires forall i :: 0 <= i < |q| ==> IsDigit(q[i])
    requires NonDigitStart(x) && NonDigitStart(y)
    requires p + x == q + y
    ensures p == q && x == y
  {
    var u, k := p + x, if |p| < |q| then |p| else |q|;
    assert k < |u| ==> u[k] == (q + y)[k];
    assert p == (p + x)[..|p|] == (q + y)[..|p|] == q;
    assert x == (p + x)[|p|..] == (q + y)[|p|..] == y;
  }

  // ----- byte-wise lexicographic order -----

  predicate Less(a: string, b: string) {
    b != [] && (a == [] || a[0] < b[0] || (a[0] == b[0] && Less(a[1..], b[1..])))
  }

  lemma {:induction false} LessTrichotomy(a: string, b: string)
    ensures a == b || Less(a, b) || Less(b, a)
  {
    if a != [] && b != [] && a[0] == b[0] {
      LessTrichotomy(a[1..], b[1..]);
      assert a == [a[0]] + a[1..] && b == [b[0]] + b[1..];
    }
  }

  lemma {:induction false} LessIrreflexive(a: string)
    ensures !Less(a, a)
  {
    if a != [] {
      LessIrreflexive(a[1..]);
    }
  }

  lemma {:induction false} LessTransitive(a: string, b: string, c: string)
    requires Less(a, b) && Less(b, c)
    ensures Less(a, c)
  {
    if a != [] && a[0] == b[0] && b[0] == c[0] {
      LessTransitive(a[1..], b[1..], c[1..]);
    }
  }

  ghost predicate Ascending(s: seq<string>) {
    forall i, j :: 0 <= i < j < |s| ==> Less(s[i], s[j])
  }

  /** A set of keys has one strictly ascending listing. */
  lemma {:induction false} AscendingUnique(a: seq<string>, b: seq<string>)
    requires Ascending(a) && Ascending(b)
    requires forall k :: k in a <==> k in b
    ensures a == b
  {
    assert a != [] ==> a[0] in b;
    assert b != [] ==> b[0] in a;
    if a != [] {
      AscendingHead(a, b[0]);
      AscendingHead(b, a[0]);
      if a[0] != b[0] {
        LessTransitive(a[0], b[0], a[0]);
        LessIrreflexive(a[0]);
      }
      AscendingTail(a);
      AscendingTail(b);
      AscendingUnique(a[1..], b[1..]);
      assert a == [a[0]] + a[1..] && b == [b[0]] + b[1..];
    }
  }

  lemma AscendingHead(a: seq<string>, k: string)
    requires Ascending(a) && k in a
    ensures a[0] == k || Less(a[0], k)
  {
    var i :| 0 <= i < |a| && a[i] == k;
  }

  lemma AscendingTail(a: seq<string>)
    requires Ascending(a) && a != []
    ensures Ascending(a[1..])
    ensures forall k :: k in a[1..] <==> k in a && k != a[0]
  {
    LessIrreflexive(a[0]);
    assert a == [a[0]] + a[1..];
  }

  predicate IsLeast(m: string, ks: set<string>) {
    m in ks && forall k :: k in ks ==> k == m || Less(m, k)
  }

  lemma {:induction false} LeastExists(ks: set<string>)
    requires ks != {}
    ensures exists m :: IsLeast(m, ks)
  {
    var k :| k in ks;
    var rest := ks - {k};
    if rest == {} {
      assert ks == {k};
      assert IsLeast(k, ks);
    } else {
      LeastExists(rest);
      var m :| IsLeast(m, rest);
      LessTrichotomy(k, m);
      if Less(k, m) {
        forall j | j in ks && j != k ensures Less(k, j) {
          if j != m { LessTransitive(k, m, j); }
        }
        assert IsLeast(k, ks);
      } else {
        assert IsLeast(m, ks);
      }
    }
  }

  lemma LeastUnique(ks: set<string>)
    ensures forall m, n :: IsLeast(m, ks) && IsLeast(n, ks) ==> m == n
  {
    forall m, n | IsLeast(m, ks) && IsLeast(n, ks) ensures m == n {
      LessIrreflexive(m);
      if Less(m, n) && Less(n, m) { LessTransitive(m, n, m); }
    }
  }

  /** The keys in byte order: what `sort_by_key` leaves, whatever order they were collected in. */
  function SortedKeys(ks: set<string>): (r: seq<string>)
    ensures Ascending(r)
    ensures forall k :: k in r <==> k in ks
  {
    if ks == {} then []
    else
      LeastExists(ks);
      LeastUnique(ks);
      var m :| IsLeast(m, ks);
      [m] + SortedKeys(ks - {m})
  }

  /** Insertion of one key into an ascending listing. */
  method InsertKey(sorted: seq<string>, k: string) returns (r: seq<string>)
    requires Ascending(sorted) && k !in sorted
    ensures Ascending(r)
    ensures forall j :: j in r <==> j in sorted || j == k
  {
    var i := 0;
    while i < |sorted| && Less(sorted[i], k)
      invariant 0 <= i <= |sorted|
      invariant forall j :: 0 <= j < i ==> Less(sorted[j], k)
    {
      i := i + 1;
    }
    InsertedAscends(sorted, i, k);
    InsertedMembers(sorted, i, k);
    r := sorted[..i] + [k] + sorted[i..];
  }

  lemma InsertedAscends(sorted: seq<string>, i: nat, k: string)
    requires Ascending(sorted) && k !in sorted && i <= |sorted|
    requires forall j :: 0 <= j < i ==> Less(sorted[j], k)
    requires i < |sorted| ==> !Less(sorted[i], k)
    ensures Ascending(sorted[..i] + [k] + sorted[i..])
  {
    if i < |sorted| {
      LessTrichotomy(sorted[i], k);
      forall j | i < j < |sorted| ensures Less(k, sorted[j]) {
        LessTransitive(k, sorted[i], sorted[j]);
      }
    }
  }

  lemma InsertedMembers(sorted: seq<string>, i: nat, k: string)
    requires i <= |sorted|
    ensures forall j :: j in sorted[..i] + [k] + sorted[i..] <==> j in sorted || j == k
  {
    assert sorted == sorted[..i] + sorted[i..];
  }

  /** `entries.sort_by_key(|(key, _)| *key)` on pairwise distinct keys. */
  method SortKeys(keys: seq<string>) returns (r: seq<string>)
    requires forall i, j :: 0 <= i < j < |keys| ==> keys[i] != keys[j]
    ensures r == SortedKeys(set k | k in keys)
  {
    r := [];
    for i := 0 to |keys|
      invariant Ascending(r)
      invariant forall k :: k in r <==> k in keys[..i]
    {
      r := InsertKey(r, keys[i]);
      assert keys[..i + 1] == keys[..i] + [keys[i]];
    }
    assert keys[..|keys|] == keys;
    AscendingUnique(r, SortedKeys(set k | k in keys));
  }

  /** `starts_with`. */
  predicate StartsWith(s: string, p: string) {
    |p| <= |s| && s[..|p|] == p
  }

  /** `strip_prefix`. */
  function StripStart(s: string, p: string): (r: Option<string>)
    ensures r.Some? ==> s == p + r.value
  {
    if StartsWith(s, p) then Some(s[|p|..]) else None
  }

  /** `find`: the first position of `c`. */
  function First(s: string, c: char): (r: Option<nat>)
    ensures r.Some? ==> r.value < |s| && s[r.value] == c && c !in s[..r.value]
    ensures r.None? ==> c !in s
  {
    if s == [] then None
    else if s[0] == c then Some(0)
    else
      match First(s[1..], c)
      case None => None
      case Some(i) =>
        assert s[..i + 1] == [s[0]] + s[1..][..i];
        Some(i + 1)
  }

  lemma StripPrefix(p: string, x: string, y: string)
    requires p + x == p + y
    ensures x == y
  {
    assert x == (p + x)[|p|..] == (p + y)[|p|..] == y;
  }

  /** What stands behind the first `c` does not matter. */
  lemma {:induction false} FirstStays(a: string, b: string, c: char)
    requires First(a, c).Some?
    ensures First(a + b, c) == First(a, c)
  {
    assert (a + b)[0] == a[0] && (a + b)[1..] == a[1..] + b;
    if a[0] != c { FirstStays(a[1..], b, c); }
  }

  lemma {:induction false} FirstAfter(a: string, c: char, b: string)
    requires c !in a
    ensures First(a + ([c] + b), c) == Some(|a|)
  {
    var s := a + ([c] + b);
    assert s[|a|] == c;
    if a != [] {
      assert s[0] == a[0] && s[1..] == a[1..] + ([c] + b);
      FirstAfter(a[1..], c, b);
    }
  }

  lemma Assoc(x: string, y: string, z: string)
    ensures (x + y) + z == x + (y + z)
  {
  }

  lemma Assoc3(x: string, y: string, z: string, r: string)
    ensures (x + (y + z)) + r == x + (y + (z + r))
  {
  }

  lemma Assoc4(u: string, x: string, y: string, z: string, w: string, r: string)
    ensures (u + (x + (y + (z + w)))) + r == u + (x + (y + (z + (w + r))))
  {
    Assoc3(x, y, z + w, r);
    Assoc(z, w, r);
  }
}
