/**
 src/config/canonical.rs: the canonical text that `config_hash` is computed from.

 `Doc` is the tree of calls made on a `CanonicalWriter`: the closure passed to `object`, `field`, `seq`
 or `map` is represented by the `Doc` it writes. `Enc` is the text those calls append; `CanonicalWriter`
 below produces it by pushing onto one buffer.
 */
module Canonical {
  import opened Text

  type i64 = n: int | -0x8000_0000_0000_0000 <= n < 0x8000_0000_0000_0000
  type u64 = n: nat | n < 0x1_0000_0000_0000_0000

  datatype Tag =
    | TomlString | TomlInteger | TomlFloat | TomlBoolean | TomlDatetime | TomlArray | TomlTable
    | JsonBool | JsonNumber | JsonString | JsonArray | JsonObject

  datatype Doc =
    | Str(text: string)
    | Bool(flag: bool)
    | Int(number: int)
    | Float(bits: u64)
    | Absent
    | JsonNull
    | Tagged(tag: Tag, body: Doc)
    | Seq(items: seq<Doc>)
    | Map(entries: map<string, Doc>)
    | Object(name: string, fields: seq<Field>)

  datatype Field = Field(name: string, value: Doc)

  // ----- the text -----

  function TagText(tag: Tag): string {
    match tag
    case TomlString => "toml-string"
    case TomlInteger => "toml-integer"
    case TomlFloat => "toml-float"
    case TomlBoolean => "toml-boolean"
    case TomlDatetime => "toml-datetime"
    case TomlArray => "toml-array"
    case TomlTable => "toml-table"
    case JsonBool => "json-bool"
    case JsonNumber => "json-number"
    case JsonString => "json-string"
    case JsonArray => "json-array"
    case JsonObject => "json-object"
  }

  /** The literal each kind of node starts with. */
  function Lead(d: Doc): string {
    match d
    case Str(_) => "s"
    case Bool(_) => "b"
    case Int(_) => "i"
    case Float(_) => "f"
    case Absent => "none"
    case JsonNull => "json-null"
    case Tagged(tag, _) => TagText(tag)
    case Seq(_) => "seq["
    case Map(_) => "map{"
    case Object(_, _) => "object"
  }

  function HexDigit(d: nat): (c: char)
    requires d < 16
    ensures c as int == if d < 10 then '0' as int + d else 'a' as int + d - 10
  {
    if d < 10 then ('0' as int + d) as char else ('a' as int + d - 10) as char
  }

  /** The low `width` hexadecimal digits of `n`, most significant first. */
  function Hex(n: nat, width: nat): (s: string)
    ensures |s| == width
  {
    if width == 0 then "" else Hex(n / 16, width - 1) + [HexDigit(n % 16)]
  }

  function LengthPrefixed(s: string): string {
    Dec(|s|) + (":" + s)
  }

  function Enc(d: Doc): string
    decreases d, 2
  {
    Lead(d) + Body(d)
  }

  function Body(d: Doc): string
    decreases d, 1
  {
    match d
    case Str(s) => LengthPrefixed(s)
    case Bool(b) => if b then "1" else "0"
    case Int(n) => DecInt(n)
    case Float(bits) => Hex(bits, 16)
    case Absent => ""
    case JsonNull => ""
    case Tagged(_, body) => Enc(body)
    case Seq(items) => EncItems(items) + "]"
    case Map(entries) => EncEntries(d, SortedKeys(entries.Keys)) + "}"
    case Object(name, fields) => "s" + (LengthPrefixed(name) + ("[" + (EncFields(fields) + "]")))
  }

  function EncItems(items: seq<Doc>): string {
    if items == [] then "" else Enc(items[0]) + (";" + EncItems(items[1..]))
  }

  /** The entries of the map node `d` at the keys `ks`, in the order of `ks`. */
  function EncEntries(d: Doc, ks: seq<string>): string
    requires d.Map? && forall k :: k in ks ==> k in d.entries
    decreases d, 0, |ks|
  {
    if ks == [] then "" else EncEntry(ks[0], d.entries[ks[0]]) + EncEntries(d, ks[1..])
  }

  function EncEntry(k: string, d: Doc): string
    decreases d, 3
  {
    "s" + (LengthPrefixed(k) + ("=" + (Enc(d) + ";")))
  }

  function EncFields(fields: seq<Field>): string {
    if fields == [] then "" else EncField(fields[0].name, fields[0].value) + EncFields(fields[1..])
  }

  function EncField(name: string, d: Doc): string
    decreases d, 4
  {
    "field" + EncEntry(name, d)
  }

  // ----- unique decodability -----

  /** An integer is the only node whose text does not show where it ends. */
  predicate EndsInInt(d: Doc) {
    d.Int? || (d.Tagged? && EndsInInt(d.body))
  }

  predicate Delimited(d: Doc, rest: string) {
    EndsInInt(d) ==> NonDigitStart(rest)
  }

  /** The node kind, read off at most eight characters of its text. */
  function Scan(x: string): int {
    if x == [] then -1
    else if x[0] == 's' then if |x| > 1 && x[1] == 'e' then 1 else 0
    else if x[0] == 't' || x[0] == 'j' then
      if |x| <= 7 then -1
      else if x[5] == 'n' then 1000 + x[7] as int
      else (if x[0] == 't' then 2000 else 3000) + x[5] as int
    else x[0] as int
  }

  function Code(d: Doc): int {
    match d
    case Str(_) => 0
    case Bool(_) => 'b' as int
    case Int(_) => 'i' as int
    case Float(_) => 'f' as int
    case Absent => 'n' as int
    case JsonNull => 1000 + 'l' as int
    case Tagged(tag, _) => TagCode(tag)
    case Seq(_) => 1
    case Map(_) => 'm' as int
    case Object(_, _) => 'o' as int
  }

  function TagCode(tag: Tag): int {
    match tag
    case TomlString => 2000 + 's' as int
    case TomlInteger => 2000 + 'i' as int
    case TomlFloat => 2000 + 'f' as int
    case TomlBoolean => 2000 + 'b' as int
    case TomlDatetime => 2000 + 'd' as int
    case TomlArray => 2000 + 'a' as int
    case TomlTable => 2000 + 't' as int
    case JsonBool => 3000 + 'b' as int
    case JsonNumber => 1000 + 'm' as int
    case JsonString => 3000 + 's' as int
    case JsonArray => 3000 + 'a' as int
    case JsonObject => 3000 + 'o' as int
  }

  lemma ScanReadsTag(tag: Tag, x: string)
    ensures Scan(TagText(tag) + x) == TagCode(tag)
  {
  }

  lemma ScanReadsLead(d: Doc, x: string)
    requires !d.Tagged? && !d.Str?
    ensures Scan(Lead(d) + x) == Code(d)
  {
  }

  lemma ScanReadsStr(s: string, x: string)
    ensures Scan("s" + (LengthPrefixed(s) + x)) == 0
  {
    var text := "s" + (LengthPrefixed(s) + x);
    assert IsDigit(text[1]);
  }

  lemma ScanReadsCode(d: Doc, r: string)
    ensures Scan(Enc(d) + r) == Code(d)
    ensures Enc(d) + r != [] && (Enc(d) + r)[0] !in {']', '}'}
  {
    Assoc(Lead(d), Body(d), r);
    LeadOpens(d, Body(d) + r);
    match d
    case Tagged(tag, _) => ScanReadsTag(tag, Body(d) + r);
    case Str(s) => ScanReadsStr(s, r);
    case _ => ScanReadsLead(d, Body(d) + r);
  }

  lemma LeadOpens(d: Doc, x: string)
    ensures Lead(d) + x != [] && (Lead(d) + x)[0] !in {']', '}'}
  {
    assert Lead(d) != "" && (Lead(d) + x)[0] == Lead(d)[0];
  }

  lemma LengthPrefixedUnique(a: string, b: string, r: string, s: string)
    requires LengthPrefixed(a) + r == LengthPrefixed(b) + s
    ensures a == b && r == s
  {
    Assoc3(Dec(|a|), ":", a, r);
    Assoc3(Dec(|b|), ":", b, s);
    DigitRunUnique(Dec(|a|), ":" + (a + r), Dec(|b|), ":" + (b + s));
    DecInjective(|a|, |b|);
    StripPrefix(":", a + r, b + s);
    assert a == (a + r)[..|a|] == (b + s)[..|b|] == b;
    StripPrefix(a, r, s);
  }

  lemma DecIntUnique(m: int, n: int, r: string, s: string)
    requires DecInt(m) + r == DecInt(n) + s
    requires NonDigitStart(r) && NonDigitStart(s)
    ensures m == n && r == s
  {
    assert (DecInt(m) + r)[0] == '-' <==> m < 0;
    assert (DecInt(n) + s)[0] == '-' <==> n < 0;
    if m < 0 {
      Assoc("-", Dec(-m), r);
      Assoc("-", Dec(-n), s);
      StripPrefix("-", Dec(-m) + r, Dec(-n) + s);
      DigitRunUnique(Dec(-m), r, Dec(-n), s);
      DecInjective(-m, -n);
    } else {
      DigitRunUnique(Dec(m), r, Dec(n), s);
      DecInjective(m, n);
    }
  }

  function Pow16(w: nat): nat {
    if w == 0 then 1 else 16 * Pow16(w - 1)
  }

  lemma {:induction false} HexInjective(m: nat, n: nat, width: nat)
    requires m < Pow16(width) && n < Pow16(width) && Hex(m, width) == Hex(n, width)
    ensures m == n
  {
    if width > 0 {
      assert Hex(m, width)[..width - 1] == Hex(m / 16, width - 1);
      assert Hex(n, width)[..width - 1] == Hex(n / 16, width - 1);
      assert Hex(m, width)[width - 1] == HexDigit(m % 16);
      assert Hex(n, width)[width - 1] == HexDigit(n % 16);
      HexInjective(m / 16, n / 16, width - 1);
    }
  }

  lemma HexUnique(m: u64, n: u64, r: string, s: string)
    requires Hex(m, 16) + r == Hex(n, 16) + s
    ensures m == n && r == s
  {
    assert Pow16(16) == 0x1_0000_0000_0000_0000 by {
      assert Pow16(4) == 0x1_0000;
      assert Pow16(8) == 0x1_0000_0000;
      assert Pow16(12) == 0x1_0000_0000_0000;
    }
    assert Hex(m, 16) == (Hex(m, 16) + r)[..16] == (Hex(n, 16) + s)[..16] == Hex(n, 16);
    HexInjective(m, n, 16);
    StripPrefix(Hex(m, 16), r, s);
  }

  lemma TagOfCode(a: Tag, b: Tag)
    requires TagCode(a) == TagCode(b)
    ensures a == b
  {
  }

  lemma SameCodeSameLead(a: Doc, b: Doc)
    requires Code(a) == Code(b)
    ensures Lead(a) == Lead(b)
    ensures a.Tagged? ==> b.Tagged? && a.tag == b.tag
  {
    if a.Tagged? && b.Tagged? { TagOfCode(a.tag, b.tag); }
  }

  lemma SameLead(a: Doc, b: Doc, r: string, s: string)
    requires Enc(a) + r == Enc(b) + s
    ensures Code(a) == Code(b)
    ensures Body(a) + r == Body(b) + s
  {
    ScanReadsCode(a, r);
    ScanReadsCode(b, s);
    SameCodeSameLead(a, b);
    Assoc(Lead(a), Body(a), r);
    Assoc(Lead(b), Body(b), s);
    StripPrefix(Lead(a), Body(a) + r, Body(b) + s);
  }

  /** No text is the encoding of two different nodes, whatever follows it. */
  lemma {:induction false} EncUnique(a: Doc, b: Doc, r: string, s: string)
    requires Enc(a) + r == Enc(b) + s
    requires Delimited(a, r) && Delimited(b, s)
    ensures a == b && r == s
    decreases a, 2
  {
    SameLead(a, b, r, s);
    match a
    case Tagged(_, _) =>
      SameCodeSameLead(a, b);
      EncUnique(a.body, b.body, r, s);
    case Seq(_) => SeqUnique(a, b, r, s);
    case Map(_) => MapUnique(a, b, r, s);
    case Object(_, _) => ObjectUnique(a, b, r, s);
    case _ => LeafUnique(a, b, r, s);
  }

  lemma BoolUnique(a: bool, b: bool, r: string, s: string)
    requires Body(Bool(a)) + r == Body(Bool(b)) + s
    ensures a == b && r == s
  {
    assert (Body(Bool(a)) + r)[0] == (Body(Bool(b)) + s)[0];
    StripPrefix(Body(Bool(a)), r, s);
  }

  lemma StrUnique(a: Doc, b: Doc, r: string, s: string)
    requires a.Str? && b.Str? && Body(a) + r == Body(b) + s
    ensures a == b && r == s
  {
    LengthPrefixedUnique(a.text, b.text, r, s);
  }

  lemma IntUnique(a: Doc, b: Doc, r: string, s: string)
    requires a.Int? && b.Int? && Body(a) + r == Body(b) + s && Delimited(a, r) && Delimited(b, s)
    ensures a == b && r == s
  {
    DecIntUnique(a.number, b.number, r, s);
  }

  lemma FloatUnique(a: Doc, b: Doc, r: string, s: string)
    requires a.Float? && b.Float? && Body(a) + r == Body(b) + s
    ensures a == b && r == s
  {
    HexUnique(a.bits, b.bits, r, s);
  }

  lemma BareUnique(a: Doc, b: Doc, r: string, s: string)
    requires (a.Absent? && b.Absent?) || (a.JsonNull? && b.JsonNull?)
    requires Body(a) + r == Body(b) + s
    ensures a == b && r == s
  {
    assert "" + r == r && "" + s == s;
  }

  lemma LeafUnique(a: Doc, b: Doc, r: string, s: string)
    requires Code(a) == Code(b) && Body(a) + r == Body(b) + s
    requires a.Str? || a.Bool? || a.Int? || a.Float? || a.Absent? || a.JsonNull?
    requires Delimited(a, r) && Delimited(b, s)
    ensures a == b && r == s
  {
    SameKindOfLeaf(a, b);
    match a
    case Str(_) => StrUnique(a, b, r, s);
    case Bool(_) => BoolUnique(a.flag, b.flag, r, s);
    case Int(_) => IntUnique(a, b, r, s);
    case Float(_) => FloatUnique(a, b, r, s);
    case _ => BareUnique(a, b, r, s);
  }

  lemma SameKindOfLeaf(a: Doc, b: Doc)
    requires Code(a) == Code(b)
    ensures (a.Str? <==> b.Str?) && (a.Bool? <==> b.Bool?) && (a.Int? <==> b.Int?) && (a.Float? <==> b.Float?)
    ensures (a.Absent? <==> b.Absent?) && (a.JsonNull? <==> b.JsonNull?)
  {
  }

  lemma {:induction false} SeqUnique(a: Doc, b: Doc, r: string, s: string)
    requires a.Seq? && b.Seq? && Body(a) + r == Body(b) + s
    ensures a == b && r == s
    decreases a, 1
  {
    Assoc(EncItems(a.items), "]", r);
    Assoc(EncItems(b.items), "]", s);
    ItemsUnique(a.items, b.items, "]" + r, "]" + s);
    StripPrefix("]", r, s);
  }

  lemma {:induction false} MapUnique(a: Doc, b: Doc, r: string, s: string)
    requires a.Map? && b.Map? && Body(a) + r == Body(b) + s
    ensures a == b && r == s
    decreases a, 1
  {
    var ka, kb := SortedKeys(a.entries.Keys), SortedKeys(b.entries.Keys);
    Assoc(EncEntries(a, ka), "}", r);
    Assoc(EncEntries(b, kb), "}", s);
    EntriesUnique(a, ka, b, kb, "}" + r, "}" + s);
    StripPrefix("}", r, s);
    SameEntries(a.entries, b.entries, ka);
  }

  lemma SameEntries(m: map<string, Doc>, n: map<string, Doc>, ks: seq<string>)
    requires forall k :: k in m <==> k in ks
    requires forall k :: k in n <==> k in ks
    requires forall k :: k in ks ==> m[k] == n[k]
    ensures m == n
  {
  }

  lemma {:induction false} ObjectUnique(a: Doc, b: Doc, r: string, s: string)
    requires a.Object? && b.Object? && Body(a) + r == Body(b) + s
    ensures a == b && r == s
    decreases a, 1
  {
    var x, y := EncFields(a.fields) + ("]" + r), EncFields(b.fields) + ("]" + s);
    Assoc4("s", LengthPrefixed(a.name), "[", EncFields(a.fields), "]", r);
    Assoc4("s", LengthPrefixed(b.name), "[", EncFields(b.fields), "]", s);
    StripPrefix("s", LengthPrefixed(a.name) + ("[" + x), LengthPrefixed(b.name) + ("[" + y));
    LengthPrefixedUnique(a.name, b.name, "[" + x, "[" + y);
    StripPrefix("[", x, y);
    FieldsUnique(a.fields, b.fields, "]" + r, "]" + s);
    StripPrefix("]", r, s);
  }

  /** What may follow a list of entries or fields: nothing, or a closing bracket. */
  predicate Closing(r: string) {
    r != [] ==> r[0] == ']' || r[0] == '}'
  }

  lemma {:induction false} ItemsUnique(a: seq<Doc>, b: seq<Doc>, r: string, s: string)
    requires EncItems(a) + r == EncItems(b) + s
    requires Closing(r) && Closing(s) && r != [] && s != []
    ensures a == b && r == s
    decreases a
  {
    ItemsHead(a, r);
    ItemsHead(b, s);
    if a != [] && b != [] {
      var x, y := EncItems(a[1..]) + r, EncItems(b[1..]) + s;
      Assoc3(Enc(a[0]), ";", EncItems(a[1..]), r);
      Assoc3(Enc(b[0]), ";", EncItems(b[1..]), s);
      EncUnique(a[0], b[0], ";" + x, ";" + y);
      StripPrefix(";", x, y);
      ItemsUnique(a[1..], b[1..], r, s);
      assert a == [a[0]] + a[1..] && b == [b[0]] + b[1..];
    }
  }

  lemma ItemsHead(a: seq<Doc>, r: string)
    requires Closing(r) && r != []
    ensures a == [] ==> EncItems(a) + r == r
    ensures EncItems(a) + r != [] && (a == [] <==> (EncItems(a) + r)[0] in {']', '}'})
  {
    if a == [] {
      assert "" + r == r;
    } else {
      ScanReadsCode(a[0], (";" + EncItems(a[1..])) + r);
      Assoc(Enc(a[0]), ";" + EncItems(a[1..]), r);
    }
  }

  lemma {:induction false} EntryUnique(j: string, a: Doc, k: string, b: Doc, r: string, s: string)
    requires EncEntry(j, a) + r == EncEntry(k, b) + s
    ensures j == k && a == b && r == s
    decreases a, 3
  {
    var x, y := Enc(a) + (";" + r), Enc(b) + (";" + s);
    Assoc4("s", LengthPrefixed(j), "=", Enc(a), ";", r);
    Assoc4("s", LengthPrefixed(k), "=", Enc(b), ";", s);
    StripPrefix("s", LengthPrefixed(j) + ("=" + x), LengthPrefixed(k) + ("=" + y));
    LengthPrefixedUnique(j, k, "=" + x, "=" + y);
    StripPrefix("=", x, y);
    EncUnique(a, b, ";" + r, ";" + s);
    StripPrefix(";", r, s);
  }

  lemma {:induction false} EntriesUnique(a: Doc, ka: seq<string>, b: Doc, kb: seq<string>, r: string, s: string)
    requires a.Map? && forall k :: k in ka ==> k in a.entries
    requires b.Map? && forall k :: k in kb ==> k in b.entries
    requires EncEntries(a, ka) + r == EncEntries(b, kb) + s
    requires Closing(r) && Closing(s) && r != [] && s != []
    ensures ka == kb && r == s
    ensures forall k :: k in ka ==> a.entries[k] == b.entries[k]
    decreases a, 0, |ka|
  {
    EntriesHead(a, ka, r);
    EntriesHead(b, kb, s);
    if ka != [] && kb != [] {
      var x, y := EncEntries(a, ka[1..]) + r, EncEntries(b, kb[1..]) + s;
      Assoc(EncEntry(ka[0], a.entries[ka[0]]), EncEntries(a, ka[1..]), r);
      Assoc(EncEntry(kb[0], b.entries[kb[0]]), EncEntries(b, kb[1..]), s);
      EntryUnique(ka[0], a.entries[ka[0]], kb[0], b.entries[kb[0]], x, y);
      EntriesUnique(a, ka[1..], b, kb[1..], r, s);
      assert ka == [ka[0]] + ka[1..] && kb == [kb[0]] + kb[1..];
    }
  }

  lemma EntriesHead(a: Doc, ka: seq<string>, r: string)
    requires a.Map? && forall k :: k in ka ==> k in a.entries
    requires Closing(r) && r != []
    ensures ka == [] ==> EncEntries(a, ka) + r == r
    ensures EncEntries(a, ka) + r != [] && (ka == [] <==> (EncEntries(a, ka) + r)[0] in {']', '}'})
  {
    if ka == [] {
      assert "" + r == r;
    } else {
      assert EncEntry(ka[0], a.entries[ka[0]])[0] == 's';
    }
  }

  /** A field list closed by a bracket, or by the end of the text, is uniquely decodable. */
  lemma {:induction false} FieldsUnique(a: seq<Field>, b: seq<Field>, r: string, s: string)
    requires EncFields(a) + r == EncFields(b) + s
    requires Closing(r) && Closing(s)
    ensures a == b && r == s
    decreases a
  {
    FieldsHead(a, r);
    FieldsHead(b, s);
    if a != [] && b != [] {
      var x, y := EncFields(a[1..]) + r, EncFields(b[1..]) + s;
      Assoc3("field", EncEntry(a[0].name, a[0].value), EncFields(a[1..]), r);
      Assoc3("field", EncEntry(b[0].name, b[0].value), EncFields(b[1..]), s);
      Assoc("field", EncEntry(a[0].name, a[0].value), EncFields(a[1..]));
      Assoc("field", EncEntry(b[0].name, b[0].value), EncFields(b[1..]));
      StripPrefix("field", EncEntry(a[0].name, a[0].value) + x, EncEntry(b[0].name, b[0].value) + y);
      EntryUnique(a[0].name, a[0].value, b[0].name, b[0].value, x, y);
      FieldsUnique(a[1..], b[1..], r, s);
      assert a == [a[0]] + a[1..] && b == [b[0]] + b[1..];
    }
  }

  lemma FieldsHead(a: seq<Field>, r: string)
    requires Closing(r)
    ensures a == [] ==> EncFields(a) + r == r
    ensures a != [] ==> EncFields(a) + r != [] && (EncFields(a) + r)[0] == 'f'
  {
    if a == [] {
      assert "" + r == r;
    } else {
      assert EncField(a[0].name, a[0].value)[0] == 'f';
    }
  }

  // ----- TOML and JSON values -----

  /** `toml::Value`; a float is its bit pattern, a date-time its printed form, a table a finite map. */
  datatype Toml =
    | String(text: string)
    | Integer(number: i64)
    | Float(bits: u64)
    | Boolean(flag: bool)
    | Datetime(printed: string)
    | Array(values: seq<Toml>)
    | Table(members: map<string, Toml>)

  /** `serde_json::Value`; a number is its printed form, an object a finite map. */
  datatype Json =
    | Null
    | Flag(flag: bool)
    | Number(printed: string)
    | Text(text: string)
    | List(elements: seq<Json>)
    | Record(members: map<string, Json>)

  function TomlDoc(v: Toml): Doc {
    match v
    case String(s) => Tagged(TomlString, Str(s))
    case Integer(n) => Tagged(TomlInteger, Int(n))
    case Float(bits) => Tagged(TomlFloat, Doc.Float(bits))
    case Boolean(b) => Tagged(TomlBoolean, Bool(b))
    case Datetime(printed) => Tagged(TomlDatetime, Str(printed))
    case Array(values) => Tagged(TomlArray, Seq(seq(|values|, i requires 0 <= i < |values| => TomlDoc(values[i]))))
    case Table(members) => Tagged(TomlTable, Map(map k | k in members :: TomlDoc(members[k])))
  }

  function JsonDoc(v: Json): Doc {
    match v
    case Null => JsonNull
    case Flag(b) => Tagged(JsonBool, Bool(b))
    case Number(printed) => Tagged(JsonNumber, Str(printed))
    case Text(s) => Tagged(JsonString, Str(s))
    case List(elements) =>
      Tagged(JsonArray, Seq(seq(|elements|, i requires 0 <= i < |elements| => JsonDoc(elements[i]))))
    case Record(members) => Tagged(JsonObject, Map(map k | k in members :: JsonDoc(members[k])))
  }

  lemma {:induction false} TomlDocInjective(a: Toml, b: Toml)
    requires TomlDoc(a) == TomlDoc(b)
    ensures a == b
  {
    match a
    case Array(xs) =>
      var da, db := TomlDoc(a).body.items, TomlDoc(b).body.items;
      forall i | 0 <= i < |xs| ensures xs[i] == b.values[i] {
        assert da[i] == db[i];
        TomlDocInjective(xs[i], b.values[i]);
      }
    case Table(m) =>
      var da, db := TomlDoc(a).body.entries, TomlDoc(b).body.entries;
      assert m.Keys == da.Keys == db.Keys == b.members.Keys;
      forall k | k in m ensures m[k] == b.members[k] {
        assert da[k] == db[k];
        TomlDocInjective(m[k], b.members[k]);
      }
    case _ =>
  }

  lemma {:induction false} JsonDocInjective(a: Json, b: Json)
    requires JsonDoc(a) == JsonDoc(b)
    ensures a == b
  {
    match a
    case List(xs) =>
      var da, db := JsonDoc(a).body.items, JsonDoc(b).body.items;
      forall i | 0 <= i < |xs| ensures xs[i] == b.elements[i] {
        assert da[i] == db[i];
        JsonDocInjective(xs[i], b.elements[i]);
      }
    case Record(m) =>
      var da, db := JsonDoc(a).body.entries, JsonDoc(b).body.entries;
      assert m.Keys == da.Keys == db.Keys == b.members.Keys;
      forall k | k in m ensures m[k] == b.members[k] {
        assert da[k] == db[k];
        JsonDocInjective(m[k], b.members[k]);
      }
    case _ =>
  }

  /** TOML values are uniquely decodable from any text whose tail cannot prolong a numeral. */
  lemma TomlUnique(a: Toml, b: Toml, r: string, s: string)
    requires Enc(TomlDoc(a)) + r == Enc(TomlDoc(b)) + s
    requires a.Integer? ==> NonDigitStart(r)
    requires b.Integer? ==> NonDigitStart(s)
    ensures a == b && r == s
  {
    assert forall v: Toml :: EndsInInt(TomlDoc(v)) == EndsInInt(TomlDoc(v).body) == v.Integer?;
    EncUnique(TomlDoc(a), TomlDoc(b), r, s);
    TomlDocInjective(a, b);
  }

  /** JSON values are self-delimiting: no condition on the tails is needed. */
  lemma JsonUnique(a: Json, b: Json, r: string, s: string)
    requires Enc(JsonDoc(a)) + r == Enc(JsonDoc(b)) + s
    ensures a == b && r == s
  {
    assert forall v: Json :: !v.Null? ==> EndsInInt(JsonDoc(v)) == EndsInInt(JsonDoc(v).body) == false;
    EncUnique(JsonDoc(a), JsonDoc(b), r, s);
    JsonDocInjective(a, b);
  }

  /** No tails can hide which value was written. */
  ghost predicate SelfDelimiting(a: Toml) {
    forall b: Toml, r, s :: Enc(TomlDoc(a)) + r == Enc(TomlDoc(b)) + s ==> a == b && r == s
  }

  lemma IntegerText(n: i64, r: string)
    ensures Enc(TomlDoc(Integer(n))) + r == "toml-integer" + ("i" + (DecInt(n) + r))
  {
    var d := TomlDoc(Integer(n));
    assert Enc(d.body) == "i" + DecInt(n) && Enc(d) == "toml-integer" + Enc(d.body);
    Assoc("i", DecInt(n), r);
    Assoc("toml-integer", Enc(d.body), r);
  }

  /** Another integer whose numeral is longer or shorter by one digit. */
  lemma ProlongedInteger(n: i64) returns (m: i64, r: string, s: string)
    requires n != 0
    ensures m != n && DecInt(n) + r == DecInt(m) + s
  {
    var size: nat := if n < 0 then -(n as int) else n;
    if size < 10 {
      m, r, s := if n < 0 then -(10 * size + 2) else 10 * size + 2, "2", "";
      assert Dec(10 * size + 2) == Dec(size) + "2";
      if n < 0 { Assoc("-", Dec(size), "2"); }
    } else {
      m, r, s := if n < 0 then -(size / 10) else size / 10, "", [DigitChar(size % 10)];
      if n < 0 { Assoc("-", Dec(size / 10), s); }
    }
    assert DecInt(n) + "" == DecInt(n) && DecInt(m) + "" == DecInt(m);
  }

  lemma {:induction false} NoLeadingZero(n: nat)
    requires n > 0
    ensures Dec(n)[0] != '0'
  {
    if n >= 10 { NoLeadingZero(n / 10); }
  }

  lemma ZeroUnique(n: i64, r: string, s: string)
    requires DecInt(0) + r == DecInt(n) + s
    ensures n == 0 && r == s
  {
    assert (DecInt(0) + r)[0] == '0' && (DecInt(n) + s)[0] == DecInt(n)[0];
    if n > 0 { NoLeadingZero(n); }
    StripPrefix(DecInt(0), r, s);
  }

  lemma OnlyIntegersLookLikeIntegers(a: Toml, b: Toml, r: string, s: string)
    requires Enc(TomlDoc(a)) + r == Enc(TomlDoc(b)) + s
    ensures a.Integer? <==> b.Integer?
  {
    SameLead(TomlDoc(a), TomlDoc(b), r, s);
    SameCodeSameLead(TomlDoc(a), TomlDoc(b));
  }

  /** Of all TOML values, exactly the integers other than 0 need a condition on what follows them. */
  lemma TomlSelfDelimitingExactly(a: Toml)
    ensures SelfDelimiting(a) <==> !a.Integer? || a.number == 0
  {
    if a.Integer? && a.number != 0 {
      var m, r, s := ProlongedInteger(a.number);
      IntegerText(a.number, r);
      IntegerText(m, s);
      assert Enc(TomlDoc(a)) + r == Enc(TomlDoc(Integer(m))) + s;
    } else {
      forall b: Toml, r, s | Enc(TomlDoc(a)) + r == Enc(TomlDoc(b)) + s ensures a == b && r == s {
        OnlyIntegersLookLikeIntegers(a, b, r, s);
        if a.Integer? {
          IntegerText(0, r);
          IntegerText(b.number, s);
          StripPrefix("toml-integer", "i" + (DecInt(0) + r), "i" + (DecInt(b.number) + s));
          StripPrefix("i", DecInt(0) + r, DecInt(b.number) + s);
          ZeroUnique(b.number, r, s);
        } else {
          TomlUnique(a, b, r, s);
        }
      }
    }
  }

  // ----- the writer -----

  /**
   The buffer every `write_*` function pushes onto. Each method appends exactly the text its node
   stands for and leaves what was there before it.
   */
  class CanonicalWriter {
    var output: string

    constructor ()
      ensures output == ""
    {
      output := "";
    }

    method PushStr(s: string)
      modifies this
      ensures output == old(output) + s
    {
      output := output + s;
    }

    method String(value: string)
      modifies this
      ensures output == old(output) + Enc(Str(value))
    {
      PushStr("s");
      PushStr(Dec(|value|));
      PushStr(":");
      PushStr(value);
      Assoc3(old(output) + "s", Dec(|value|), ":", value);
      Assoc(old(output), "s", LengthPrefixed(value));
    }

    method I64(value: int)
      modifies this
      ensures output == old(output) + Enc(Int(value))
    {
      PushStr("i");
      PushStr(DecInt(value));
      Assoc(old(output), "i", DecInt(value));
    }

    method F64(bits: u64)
      modifies this
      ensures output == old(output) + Enc(Doc.Float(bits))
    {
      PushStr("f");
      PushStr(Hex(bits, 16));
      Assoc(old(output), "f", Hex(bits, 16));
    }

    /** Makes the calls `d` stands for. */
    method Write(d: Doc)
      modifies this
      ensures output == old(output) + Enc(d)
      decreases d, 2
    {
      match d
      case Str(s) => String(s);
      case Bool(b) => PushStr(if b then "b1" else "b0");
      case Int(n) => I64(n);
      case Float(bits) => F64(bits);
      case Absent => PushStr("none");
      case JsonNull => PushStr("json-null");
      case Tagged(tag, body) =>
        PushStr(TagText(tag));
        Write(body);
        Assoc(old(output), TagText(tag), Enc(body));
      case Seq(items) => WriteSeq(d);
      case Map(entries) => WriteMap(d);
      case Object(name, fields) => WriteObject(d);
    }

    /** `seq`: every item, each closed by `;`. */
    method WriteSeq(d: Doc)
      requires d.Seq?
      modifies this
      ensures output == old(output) + Enc(d)
      decreases d, 1
    {
      PushStr("seq[");
      WriteItems(d.items);
      PushStr("]");
      AppendThree(old(output), "seq[", EncItems(d.items), "]");
    }

    method WriteItems(items: seq<Doc>)
      modifies this
      ensures output == old(output) + EncItems(items)
      decreases items
    {
      ghost var start := output;
      for i := 0 to |items|
        invariant output + EncItems(items[i..]) == start + EncItems(items)
      {
        ghost var before := output;
        ItemsFrom(items, i);
        Write(items[i]);
        PushStr(";");
        AppendTwo(before, Enc(items[i]), ";", EncItems(items[i + 1..]));
      }
      assert output + "" == output;
    }

    /** `map`: the entries are collected in the map's own order, sorted by key, and written. */
    method WriteMap(d: Doc)
      requires d.Map?
      modifies this
      ensures output == old(output) + Enc(d)
      decreases d, 1
    {
      var keys := CollectSortedKeys(d.entries);
      PushStr("map{");
      WriteEntries(d, keys);
      PushStr("}");
      AppendTwo(old(output), "map{", EncEntries(d, keys), "}");
    }

    method WriteEntries(d: Doc, keys: seq<string>)
      requires d.Map? && forall k :: k in keys ==> k in d.entries
      modifies this
      ensures output == old(output) + EncEntries(d, keys)
      decreases d, 0
    {
      ghost var start := output;
      for i := 0 to |keys|
        invariant output + EncEntries(d, keys[i..]) == start + EncEntries(d, keys)
      {
        assert keys[i..][0] == keys[i] && keys[i..][1..] == keys[i + 1..];
        ghost var before := output;
        WriteEntry(keys[i], d.entries[keys[i]]);
        Assoc(before, EncEntry(keys[i], d.entries[keys[i]]), EncEntries(d, keys[i + 1..]));
      }
      assert output + "" == output;
    }

    method WriteEntry(k: string, d: Doc)
      modifies this
      ensures output == old(output) + EncEntry(k, d)
      decreases d, 3
    {
      String(k);
      PushStr("=");
      Write(d);
      PushStr(";");
      Assoc("s", LengthPrefixed(k), "=" + (Enc(d) + ";"));
      AppendFour(old(output), Enc(Str(k)), "=", Enc(d), ";");
    }

    /** `field`. */
    method WriteField(name: string, d: Doc)
      modifies this
      ensures output == old(output) + EncField(name, d)
      decreases d, 4
    {
      PushStr("field");
      WriteEntry(name, d);
      Assoc(old(output), "field", EncEntry(name, d));
    }

    /** Consecutive `field` calls. */
    method WriteFields(fields: seq<Field>)
      modifies this
      ensures output == old(output) + EncFields(fields)
      decreases fields
    {
      ghost var start := output;
      for i := 0 to |fields|
        invariant output + EncFields(fields[i..]) == start + EncFields(fields)
      {
        assert fields[i..][0] == fields[i] && fields[i..][1..] == fields[i + 1..];
        ghost var before := output;
        WriteField(fields[i].name, fields[i].value);
        Assoc(before, EncField(fields[i].name, fields[i].value), EncFields(fields[i + 1..]));
      }
      assert output + "" == output;
    }

    /** `object`: the name, then the fields in the order they are written. */
    method WriteObject(d: Doc)
      requires d.Object?
      modifies this
      ensures output == old(output) + Enc(d)
      decreases d, 1
    {
      PushStr("object");
      String(d.name);
      PushStr("[");
      WriteFields(d.fields);
      PushStr("]");
      Assoc("s", LengthPrefixed(d.name), "[" + (EncFields(d.fields) + "]"));
      Assoc(Enc(Str(d.name)), "[", EncFields(d.fields) + "]");
      AppendFive(old(output), "object", Enc(Str(d.name)), "[", EncFields(d.fields), "]");
    }

    method TomlValue(v: Toml)
      modifies this
      ensures output == old(output) + Enc(TomlDoc(v))
    {
      match v {
        case String(s) => PushStr("toml-string"); String(s);
        case Integer(n) => PushStr("toml-integer"); I64(n);
        case Float(bits) => PushStr("toml-float"); F64(bits);
        case Boolean(b) => PushStr("toml-boolean"); Write(Bool(b));
        case Datetime(printed) => PushStr("toml-datetime"); String(printed);
        case Array(_) => PushStr("toml-array"); WriteSeq(TomlDoc(v).body);
        case Table(_) => PushStr("toml-table"); WriteMap(TomlDoc(v).body);
      }
      TagThenBody(old(output), TomlDoc(v));
    }

    method JsonValue(v: Json)
      modifies this
      ensures output == old(output) + Enc(JsonDoc(v))
    {
      match v {
        case Null => PushStr("json-null"); return;
        case Flag(b) => PushStr("json-bool"); Write(Bool(b));
        case Number(printed) => PushStr("json-number"); String(printed);
        case Text(s) => PushStr("json-string"); String(s);
        case List(_) => PushStr("json-array"); WriteSeq(JsonDoc(v).body);
        case Record(_) => PushStr("json-object"); WriteMap(JsonDoc(v).body);
      }
      TagThenBody(old(output), JsonDoc(v));
    }
  }

  /** `entries.into_iter().collect()` then `sort_by_key`: whatever order the map yields its keys in. */
  method CollectSortedKeys(entries: map<string, Doc>) returns (keys: seq<string>)
    ensures keys == SortedKeys(entries.Keys)
  {
    var collected, left := [], entries.Keys;
    while left != {}
      invariant left <= entries.Keys
      invariant forall k :: k in entries.Keys <==> k in collected || k in left
      invariant forall k :: k in collected ==> k !in left
      invariant forall i, j :: 0 <= i < j < |collected| ==> collected[i] != collected[j]
    {
      var k :| k in left;
      collected, left := collected + [k], left - {k};
    }
    assert (set k | k in collected) == entries.Keys;
    keys := SortKeys(collected);
  }

  lemma ItemsFrom(items: seq<Doc>, i: nat)
    requires i < |items|
    ensures EncItems(items[i..]) == Enc(items[i]) + (";" + EncItems(items[i + 1..]))
  {
    assert items[i..][0] == items[i] && items[i..][1..] == items[i + 1..];
  }

  lemma AppendFive(x: string, a: string, b: string, c: string, d: string, e: string)
    ensures ((((x + a) + b) + c) + d) + e == x + (a + (b + (c + (d + e))))
  {
    AppendFour(x + a, b, c, d, e);
    Assoc(x, a, b + (c + (d + e)));
  }

  lemma AppendFour(x: string, b: string, c: string, d: string, e: string)
    ensures (((x + b) + c) + d) + e == x + (b + (c + (d + e)))
  {
    Assoc((x + b) + c, d, e);
    Assoc(x + b, c, d + e);
    Assoc(x, b, c + (d + e));
  }

  lemma TagThenBody(before: string, d: Doc)
    requires d.Tagged?
    ensures (before + TagText(d.tag)) + Enc(d.body) == before + Enc(d)
  {
    Assoc(before, TagText(d.tag), Enc(d.body));
  }

  lemma AppendThree(x: string, a: string, b: string, c: string)
    ensures ((x + a) + b) + c == x + (a + (b + c))
  {
    Assoc(x + a, b, c);
    Assoc(x, a, b + c);
  }

  lemma AppendTwo(x: string, y: string, z: string, r: string)
    ensures ((x + y) + z) + r == x + (y + (z + r))
  {
  }

  lemma {:induction false} EncFieldsConcat(a: seq<Field>, b: seq<Field>)
    ensures EncFields(a + b) == EncFields(a) + EncFields(b)
  {
    if a == [] {
      assert a + b == b && "" + EncFields(b) == EncFields(b);
    } else {
      assert (a + b)[0] == a[0] && (a + b)[1..] == a[1..] + b;
      EncFieldsConcat(a[1..], b);
      Assoc(EncField(a[0].name, a[0].value), EncFields(a[1..]), EncFields(b));
    }
  }
}
