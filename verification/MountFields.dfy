/**
 src/docker/mounts.rs, `docker_mount_csv_fields`: the quoted-field parser of `--mount` strings.
 */
module MountFields {
  import opened Text

  /** Where the parser stands: the flags `field_start`, `quoted` and `after_quote` of the loop, or none. */
  datatype Mode = AtStart | Bare | InQuotes | AfterQuotes

  function PrependField(f: string, rest: Option<seq<string>>): Option<seq<string>> {
    match rest
    case None => None
    case Some(fs) => Some([f] + fs)
  }

  /** The fields of `s`, where `field` has already been read of the first one. */
  function Parse(mode: Mode, field: string, s: string): (r: Option<seq<string>>)
    ensures r.Some? ==> r.value != []
    decreases |s|
  {
    if s == [] then if mode.InQuotes? then None else Some([field])
    else if mode.InQuotes? then
      if s[0] == '"' && |s| > 1 && s[1] == '"' then Parse(InQuotes, field + ['"'], s[2..])
      else if s[0] == '"' then Parse(AfterQuotes, field, s[1..])
      else Parse(InQuotes, field + [s[0]], s[1..])
    else if s[0] == ',' then PrependField(field, Parse(AtStart, "", s[1..]))
    else if s[0] == '"' then if mode.AtStart? then Parse(InQuotes, field, s[1..]) else None
    else if mode.AfterQuotes? then None
    else Parse(Bare, field + [s[0]], s[1..])
  }

  /** `docker_mount_csv_fields`. */
  method DockerMountCsvFields(input: string) returns (r: Option<seq<string>>)
    ensures r == Parse(AtStart, "", input)
  {
    var fields: seq<string>, field := [], "";
    var quoted, afterQuote, fieldStart := false, false, true;
    var i := 0;
    ghost var mode := AtStart;
    assert input[0..] == input;
    assert Parse(mode, field, input).Some? ==>
           fields + Parse(mode, field, input).value == Parse(mode, field, input).value;
    while i < |input|
      invariant 0 <= i <= |input|
      invariant quoted <==> mode.InQuotes?
      invariant !quoted ==> (afterQuote <==> mode.AfterQuotes?) && (fieldStart <==> mode.AtStart?)
      invariant Parse(AtStart, "", input) == Restore(fields, Parse(mode, field, input[i..]))
    {
      var character := input[i];
      ghost var rest := input[i..];
      assert rest[1..] == input[i + 1..] && (|rest| > 1 ==> rest[2..] == input[i + 2..]);
      i := i + 1;
      if quoted {
        if character == '"' && i < |input| && input[i] == '"' {
          field := field + ['"'];
          i := i + 1;
        } else if character == '"' {
          quoted, afterQuote, fieldStart, mode := false, true, false, AfterQuotes;
        } else {
          field := field + [character];
        }
        continue;
      }
      if character == ',' {
        RestoreOne(fields, field, Parse(AtStart, "", input[i..]));
        fields, field := fields + [field], "";
        afterQuote, fieldStart, mode := false, true, AtStart;
      } else if character == '"' {
        if !fieldStart {
          return None;
        }
        quoted, fieldStart, mode := true, false, InQuotes;
      } else if afterQuote {
        return None;
      } else {
        field, fieldStart, mode := field + [character], false, Bare;
      }
    }
    assert input[i..] == [];
    if quoted {
      return None;
    }
    r := Some(fields + [field]);
  }

  /** The fields already finished, in front of those to come. */
  function Restore(done: seq<string>, rest: Option<seq<string>>): Option<seq<string>> {
    match rest
    case None => None
    case Some(fs) => Some(done + fs)
  }

  lemma RestoreOne(done: seq<string>, f: string, rest: Option<seq<string>>)
    ensures Restore(done, PrependField(f, rest)) == Restore(done + [f], rest)
  {
    if rest.Some? { assert done + ([f] + rest.value) == (done + [f]) + rest.value; }
  }

  // ----- printing (RFC 4180, section 2) -----

  /** Each quote inside a quoted field is doubled. */
  function Escape(f: string): string {
    if f == [] then [] else (if f[0] == '"' then ['"', '"'] else [f[0]]) + Escape(f[1..])
  }

  predicate IsBare(f: string) {
    forall i :: 0 <= i < |f| ==> f[i] != ',' && f[i] != '"'
  }

  function PrintField(f: string, quoted: bool): string {
    if quoted then ['"'] + (Escape(f) + ['"']) else f
  }

  /** A field with a comma or a quote in it must be quoted; any other field may be. */
  predicate Quotable(fs: seq<string>, quoted: seq<bool>) {
    |quoted| == |fs| && forall i :: 0 <= i < |fs| ==> quoted[i] || IsBare(fs[i])
  }

  function Print(fs: seq<string>, quoted: seq<bool>): string
    requires |quoted| == |fs|
    decreases |fs|, 0
  {
    if fs == [] then []
    else PrintField(fs[0], quoted[0]) + PrintTail(fs[1..], quoted[1..])
  }

  /** The fields after the first, each behind its comma. */
  function PrintTail(fs: seq<string>, quoted: seq<bool>): string
    requires |quoted| == |fs|
    decreases |fs|, 1
  {
    if fs == [] then [] else [','] + Print(fs, quoted)
  }

  predicate EndsField(tail: string) {
    tail == [] || tail[0] == ','
  }

  lemma {:induction false} ParseBareRun(mode: Mode, field: string, f: string, tail: string)
    requires mode.AtStart? || mode.Bare?
    requires IsBare(f) && EndsField(tail)
    ensures Parse(mode, field, f + tail) == Parse(Bare, field + f, tail)
    decreases |f|
  {
    if f == [] {
      assert f + tail == tail && field + f == field;
    } else {
      assert (f + tail)[0] == f[0] && (f + tail)[1..] == f[1..] + tail;
      ParseBareRun(Bare, field + [f[0]], f[1..], tail);
      assert (field + [f[0]]) + f[1..] == field + f;
    }
  }

  lemma {:induction false} ParseQuotedRun(field: string, f: string, tail: string)
    requires EndsField(tail)
    ensures Parse(InQuotes, field, Escape(f) + (['"'] + tail)) == Parse(AfterQuotes, field + f, tail)
    decreases |f|
  {
    var s := Escape(f) + (['"'] + tail);
    if f == [] {
      assert s == ['"'] + tail && s[1..] == tail && field + f == field;
    } else {
      var rest := Escape(f[1..]) + (['"'] + tail);
      assert f[0] == '"' ==> s[0] == '"' && s[1] == '"' && s[2..] == rest;
      assert f[0] != '"' ==> s[0] == f[0] && s[1..] == rest;
      ParseQuotedRun(field + [f[0]], f[1..], tail);
      assert (field + [f[0]]) + f[1..] == field + f;
    }
  }

  lemma ParseField(f: string, quoted: bool, tail: string)
    requires quoted || IsBare(f)
    requires EndsField(tail)
    ensures Parse(AtStart, "", PrintField(f, quoted) + tail)
            == if tail == [] then Some([f]) else PrependField(f, Parse(AtStart, "", tail[1..]))
  {
    assert "" + f == f;
    if quoted {
      var s := PrintField(f, quoted) + tail;
      assert s[0] == '"' && s[1..] == Escape(f) + (['"'] + tail);
      ParseQuotedRun("", f, tail);
    } else {
      ParseBareRun(AtStart, "", f, tail);
    }
  }

  /** Parsing undoes printing, for every non-empty list of fields and every choice of what to quote. */
  lemma {:induction false} ParseAfterPrint(fs: seq<string>, quoted: seq<bool>)
    requires fs != [] && Quotable(fs, quoted)
    ensures Parse(AtStart, "", Print(fs, quoted)) == Some(fs)
    decreases |fs|
  {
    var tail := PrintTail(fs[1..], quoted[1..]);
    ParseField(fs[0], quoted[0], tail);
    if fs[1..] == [] {
      assert fs == [fs[0]];
    } else {
      ParseAfterPrint(fs[1..], quoted[1..]);
      assert tail[1..] == Print(fs[1..], quoted[1..]);
      assert fs == [fs[0]] + fs[1..];
    }
  }

  /** The text of what is still to be read of the current field. */
  function FieldText(mode: Mode, f: string, quoted: bool): string {
    match mode
    case AtStart => PrintField(f, quoted)
    case Bare => f
    case InQuotes => Escape(f) + ['"']
    case AfterQuotes => []
  }

  predicate FieldFits(mode: Mode, f: string, quoted: bool) {
    match mode
    case AtStart => quoted || IsBare(f)
    case Bare => IsBare(f)
    case InQuotes => true
    case AfterQuotes => f == []
  }

  /** `f` is what remains of the first of the fields `fs`, `quoted` and `later` how it and the others were printed. */
  ghost predicate Explains(fs: seq<string>, mode: Mode, field: string, s: string, f: string, quoted: bool,
                           later: seq<bool>) {
    && fs != [] && fs[0] == field + f && FieldFits(mode, f, quoted) && Quotable(fs[1..], later)
    && s == FieldText(mode, f, quoted) + PrintTail(fs[1..], later)
  }

  lemma GrowField(field: string, c: char, g: string)
    ensures (field + [c]) + g == field + ([c] + g)
  {
  }

  lemma QuotedCharText(c: char, g: string, tail: string, s: string, rest: string)
    requires s == (if c == '"' then ['"', '"'] else [c]) + rest && rest == (Escape(g) + ['"']) + tail
    ensures s == (Escape([c] + g) + ['"']) + tail
  {
    assert ([c] + g)[1..] == g;
  }

  /** One character of a quoted field, read from one byte or from a doubled quote. */
  lemma ExplainQuotedChar(fs: seq<string>, field: string, s: string, n: nat, g: string, quoted: bool, later: seq<bool>)
    requires 1 <= n <= |s| && s[..n] == if s[0] == '"' then ['"', '"'] else [s[0]]
    requires Explains(fs, InQuotes, field + [s[0]], s[n..], g, quoted, later)
    ensures Explains(fs, InQuotes, field, s, [s[0]] + g, quoted, later)
  {
    GrowField(field, s[0], g);
    assert s == s[..n] + s[n..];
    QuotedCharText(s[0], g, PrintTail(fs[1..], later), s, s[n..]);
  }

  lemma ExplainClosingQuote(fs: seq<string>, field: string, s: string, f: string, quoted: bool, later: seq<bool>)
    requires s != [] && s[0] == '"' && Explains(fs, AfterQuotes, field, s[1..], f, quoted, later)
    ensures Explains(fs, InQuotes, field, s, f, quoted, later)
  {
    assert s == ['"'] + s[1..];
  }

  lemma ExplainOpeningQuote(fs: seq<string>, field: string, s: string, f: string, quoted: bool, later: seq<bool>)
    requires s != [] && s[0] == '"' && Explains(fs, InQuotes, field, s[1..], f, quoted, later)
    ensures Explains(fs, AtStart, field, s, f, true, later)
  {
    assert s == ['"'] + s[1..];
    Assoc(['"'], Escape(f) + ['"'], PrintTail(fs[1..], later));
  }

  lemma ExplainBareChar(fs: seq<string>, mode: Mode, field: string, s: string, g: string, quoted: bool,
                        later: seq<bool>)
    requires s != [] && s[0] != ',' && s[0] != '"' && (mode.AtStart? || mode.Bare?)
    requires Explains(fs, Bare, field + [s[0]], s[1..], g, quoted, later)
    ensures Explains(fs, mode, field, s, [s[0]] + g, false, later)
  {
    GrowField(field, s[0], g);
    assert s == [s[0]] + s[1..];
    Assoc([s[0]], g, PrintTail(fs[1..], later));
  }

  lemma ExplainComma(fs: seq<string>, mode: Mode, field: string, s: string, g: string, quoted: bool, later: seq<bool>)
    requires s != [] && s[0] == ',' && !mode.InQuotes?
    requires Explains(fs, AtStart, "", s[1..], g, quoted, later)
    ensures Explains([field] + fs, mode, field, s, "", false, [quoted] + later)
  {
    assert "" + g == g && field + "" == field;
    assert ([field] + fs)[1..] == fs && ([quoted] + later)[1..] == later;
    assert s == [','] + s[1..];
    assert PrintTail(fs, [quoted] + later) == [','] + (PrintField(g, quoted) + PrintTail(fs[1..], later));
    assert "" + s == s;
  }

  /** Whatever is accepted was printed. */
  lemma {:induction false} Unparse(mode: Mode, field: string, s: string)
    returns (f: string, quoted: bool, later: seq<bool>)
    requires Parse(mode, field, s).Some?
    ensures Explains(Parse(mode, field, s).value, mode, field, s, f, quoted, later)
    decreases |s|
  {
    var fs := Parse(mode, field, s).value;
    if s == [] {
      f, quoted, later := "", false, [];
      assert field + "" == field;
    } else if mode.InQuotes? && s[0] == '"' && (|s| == 1 || s[1] != '"') {
      f, quoted, later := Unparse(AfterQuotes, field, s[1..]);
      ExplainClosingQuote(fs, field, s, f, quoted, later);
    } else if mode.InQuotes? {
      var n := if s[0] == '"' then 2 else 1;
      var g;
      g, quoted, later := Unparse(InQuotes, field + [s[0]], s[n..]);
      ExplainQuotedChar(fs, field, s, n, g, quoted, later);
      f := [s[0]] + g;
    } else if s[0] == ',' {
      var g, q, more := Unparse(AtStart, "", s[1..]);
      ExplainComma(Parse(AtStart, "", s[1..]).value, mode, field, s, g, q, more);
      f, quoted, later := "", false, [q] + more;
    } else if s[0] == '"' {
      f, quoted, later := Unparse(InQuotes, field, s[1..]);
      ExplainOpeningQuote(fs, field, s, f, quoted, later);
      quoted := true;
    } else {
      var g;
      g, quoted, later := Unparse(Bare, field + [s[0]], s[1..]);
      ExplainBareChar(fs, mode, field, s, g, quoted, later);
      f, quoted := [s[0]] + g, false;
    }
  }

  /** The parser accepts exactly what the quoting rules can print, and answers with what was printed. */
  lemma ParseExactlyUndoesPrint(s: string, fs: seq<string>)
    ensures Parse(AtStart, "", s) == Some(fs)
            <==> fs != [] && exists quoted :: Quotable(fs, quoted) && Print(fs, quoted) == s
  {
    if Parse(AtStart, "", s) == Some(fs) {
      var f, q, later := Unparse(AtStart, "", s);
      var quoted := [q] + later;
      assert "" + f == f && quoted[1..] == later && fs == [f] + fs[1..];
      assert Quotable(fs, quoted) && Print(fs, quoted) == s;
    }
    if fs != [] && exists quoted :: Quotable(fs, quoted) && Print(fs, quoted) == s {
      var quoted :| Quotable(fs, quoted) && Print(fs, quoted) == s;
      ParseAfterPrint(fs, quoted);
    }
  }

  /** Commas with an even number of quotes before them; `inside` says that the count so far is odd. */
  function UnquotedCommas(inside: bool, s: string): nat
    decreases |s|
  {
    if s == [] then 0
    else if s[0] == '"' then UnquotedCommas(!inside, s[1..])
    else (if s[0] == ',' && !inside then 1 else 0) + UnquotedCommas(inside, s[1..])
  }

  /** There is one field more than there are unquoted commas. */
  lemma {:induction false} FieldCount(mode: Mode, field: string, s: string)
    requires Parse(mode, field, s).Some?
    ensures |Parse(mode, field, s).value| == 1 + UnquotedCommas(mode.InQuotes?, s)
    decreases |s|
  {
    if s == [] {
    } else if mode.InQuotes? {
      if s[0] == '"' && |s| > 1 && s[1] == '"' {
        assert s[1..][1..] == s[2..];
        FieldCount(InQuotes, field + ['"'], s[2..]);
      } else if s[0] == '"' {
        FieldCount(AfterQuotes, field, s[1..]);
      } else {
        FieldCount(InQuotes, field + [s[0]], s[1..]);
      }
    } else if s[0] == ',' {
      FieldCount(AtStart, "", s[1..]);
    } else if s[0] == '"' {
      FieldCount(InQuotes, field, s[1..]);
    } else {
      FieldCount(Bare, field + [s[0]], s[1..]);
    }
  }
}
