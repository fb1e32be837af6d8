/**
 src/config/hash.rs: the shapes that the sections of the preimage share, and when a writer loses nothing.
 */
module HashShapes {
  import opened Text
  import opened Canonical

  function Maybe<T>(o: Option<T>, f: T -> Doc): Doc {
    match o
    case None => Absent
    case Some(v) => f(v)
  }

  function Each<T>(xs: seq<T>, f: T -> Doc): Doc {
    Seq(seq(|xs|, i requires 0 <= i < |xs| => f(xs[i])))
  }

  function Entries<T>(m: map<string, T>, f: T -> Doc): Doc {
    Map(map k | k in m :: f(m[k]))
  }

  function StrDoc(s: string): Doc { Str(s) }
  function BoolDoc(b: bool): Doc { Bool(b) }
  function NatDoc(n: nat): Doc { Str(Dec(n)) }
  function StrsDoc(xs: seq<string>): Doc { Each(xs, StrDoc) }
  function StrMapDoc(m: map<string, string>): Doc { Entries(m, StrDoc) }

  ghost predicate Faithful<T(!new)>(f: T -> Doc) {
    && (forall a, b :: f(a) == f(b) ==> a == b)
    && (forall a :: f(a) != Absent)
  }

  lemma MaybeFaithful<T(!new)>(f: T -> Doc, a: Option<T>, b: Option<T>)
    requires Faithful(f) && Maybe(a, f) == Maybe(b, f)
    ensures a == b
  {
  }

  lemma EachFaithful<T(!new)>(f: T -> Doc, a: seq<T>, b: seq<T>)
    requires Faithful(f) && Each(a, f) == Each(b, f)
    ensures a == b
  {
    var da, db := Each(a, f).items, Each(b, f).items;
    assert |da| == |a| && |db| == |b|;
    forall i | 0 <= i < |a| ensures a[i] == b[i] {
      assert da[i] == f(a[i]) && db[i] == f(b[i]);
    }
  }

  lemma EntriesFaithful<T(!new)>(f: T -> Doc, a: map<string, T>, b: map<string, T>)
    requires Faithful(f) && Entries(a, f) == Entries(b, f)
    ensures a == b
  {
    var da, db := Entries(a, f).entries, Entries(b, f).entries;
    assert a.Keys == da.Keys == db.Keys == b.Keys;
    forall k | k in a ensures a[k] == b[k] {
      assert da[k] == f(a[k]) && db[k] == f(b[k]);
    }
  }

  lemma BasicsFaithful()
    ensures Faithful(StrDoc) && Faithful(BoolDoc) && Faithful(NatDoc)
    ensures Faithful(TomlDoc) && Faithful(JsonDoc)
  {
    forall m, n | NatDoc(m) == NatDoc(n) ensures m == n { DecInjective(m, n); }
    forall a, b | TomlDoc(a) == TomlDoc(b) ensures a == b { TomlDocInjective(a, b); }
    forall a, b | JsonDoc(a) == JsonDoc(b) ensures a == b { JsonDocInjective(a, b); }
  }

  /** A field that is written only when it has something to say. */
  function Optional(name: string, d: Option<Doc>): seq<Field> {
    match d
    case None => []
    case Some(v) => [Field(name, v)]
  }

  /** A field that may be left out is still recognisable, because the field after it has another name. */
  lemma OptionalUnique(name: string, x: Option<Doc>, y: Option<Doc>, r: seq<Field>, s: seq<Field>)
    requires Optional(name, x) + r == Optional(name, y) + s
    requires r != [] && s != [] && r[0].name != name && s[0].name != name
    ensures x == y && r == s
  {
    var u, v := Optional(name, x) + r, Optional(name, y) + s;
    assert u[0] == v[0];
    assert r == u[|Optional(name, x)|..] && s == v[|Optional(name, y)|..];
  }
}
