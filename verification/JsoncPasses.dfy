/**
 src/devcontainer/json.rs: the two index loops, proved against the functions of `Jsonc`. Their re-check of
 the output with `String::from_utf8` can never fail on a Rust string.
 */
module JsoncPasses {
  import opened Text
  import opened Jsonc
  import Utf8

  // ----- UTF-8 survives both passes -----

  lemma {:induction false} StripKeepsUtf8(st: Utf8.State, s: string)
    requires Strip(s).Some? && Utf8.Run(st, s) == Utf8.Start
    ensures Utf8.Run(st, Strip(s).value) == Utf8.Start
    decreases |s|
  {
    if s != [] {
      match Front(s)
      case Quoted(n) =>
        RunSplit(st, s, n);
        Utf8.RunConcat(st, s[..n], Strip(s[n..]).value);
        StripKeepsUtf8(Utf8.Run(st, s[..n]), s[n..]);
      case Comment(n) =>
        CommentIsBlanked(st, s, Strip(s[n..]).value);
        StripKeepsUtf8(Utf8.Start, s[n..]);
      case Plain =>
        StripKeepsUtf8(Utf8.Step(st, s[0]), s[1..]);
        assert Strip(s).value[1..] == Strip(s[1..]).value;
    }
  }

  lemma RunSplit(st: Utf8.State, s: string, n: nat)
    requires n <= |s|
    ensures Utf8.Run(st, s) == Utf8.Run(Utf8.Run(st, s[..n]), s[n..])
  {
    assert s == s[..n] + s[n..];
    Utf8.RunConcat(st, s[..n], s[n..]);
  }

  /** A comment stands between characters, and its blanks leave the automaton there. */
  lemma CommentIsBlanked(st: Utf8.State, s: string, rest: string)
    requires s != [] && Front(s).Comment? && Utf8.Run(st, s) == Utf8.Start
    ensures Utf8.Run(Utf8.Start, s[Front(s).len..]) == Utf8.Start
    ensures Utf8.Run(st, Blank(s[..Front(s).len]) + rest) == Utf8.Run(Utf8.Start, rest)
  {
    var n := Front(s).len;
    Utf8.AsciiOnlyAtStart(st, s);
    CommentIsWhole(s);
    Utf8.RunAscii(Blank(s[..n]));
    Utf8.RunConcat(st, Blank(s[..n]), rest);
  }

  /** A comment begins and ends at character boundaries, because both its ends are ASCII. */
  lemma CommentIsWhole(s: string)
    requires s != [] && Front(s).Comment? && Utf8.Valid(s)
    ensures Utf8.Run(Utf8.Start, s[Front(s).len..]) == Utf8.Start
  {
    var n := Front(s).len;
    assert s == s[..n] + s[n..];
    Utf8.RunConcat(Utf8.Start, s[..n], s[n..]);
    if n < |s| {
      assert s[..n] == s[..n - 1] + [s[n - 1]];
      Utf8.RunConcat(Utf8.Start, s[..n - 1], [s[n - 1]]);
      assert [s[n - 1]][1..] == [];
      assert s[n - 1] as int < 0x80 by {
        if s[1] == '/' { assert s[n - 1] == s[2..][n - 3]; } else { assert s[n - 1] == s[2..][n - 3]; }
      }
      Utf8.BadIsFinal(s[n..]);
    } else {
      assert s[n..] == [];
    }
  }

  lemma {:induction false} TrailKeepsUtf8(st: Utf8.State, p: Option<char>, s: string)
    ensures Utf8.Run(st, Trail(p, s)) == Utf8.Run(st, s)
    decreases |s|
  {
    if s != [] {
      if s[0] == '"' {
        var n := Front(s).len;
        assert s == s[..n] + s[n..];
        Utf8.RunConcat(st, s[..n], s[n..]);
        Utf8.RunConcat(st, s[..n], Trail(LastNonSpace(p, s[..n]), s[n..]));
        TrailKeepsUtf8(Utf8.Run(st, s[..n]), LastNonSpace(p, s[..n]), s[n..]);
      } else {
        TrailKeepsUtf8(Utf8.Step(st, s[0]), After(p, s[0]), s[1..]);
        assert Trail(p, s)[1..] == Trail(After(p, s[0]), s[1..]);
      }
    }
  }

  /** The normalised text is valid UTF-8 whenever the input is. */
  lemma NormalizeKeepsUtf8(s: string)
    requires Utf8.UtfOctets(s) && Normalize(s).Some?
    ensures Utf8.UtfOctets(Strip(s).value) && Utf8.UtfOctets(Normalize(s).value)
  {
    Utf8.AutomatonIsGrammar(s);
    StripKeepsUtf8(Utf8.Start, s);
    TrailKeepsUtf8(Utf8.Start, None, Strip(s).value);
    Utf8.AutomatonIsGrammar(Strip(s).value);
    Utf8.AutomatonIsGrammar(Normalize(s).value);
  }

  // ----- the loops -----

  /** Where the literal ends whose inside is being copied at index `i`. */
  function StringEnd(bytes: string, i: nat): (end: nat)
    ensures i <= end && (i <= |bytes| ==> end <= |bytes|)
    decreases |bytes| - i
  {
    if i >= |bytes| then i
    else if bytes[i] == '\\' && i + 1 < |bytes| then StringEnd(bytes, i + 2)
    else if bytes[i] == '"' then i + 1
    else StringEnd(bytes, i + 1)
  }

  lemma {:induction false} StringEndAt(bytes: string, i: nat)
    requires i <= |bytes|
    ensures StringEnd(bytes, i) == i + StringBody(bytes[i..])
    decreases |bytes| - i
  {
    var rest := bytes[i..];
    if i < |bytes| {
      assert rest[1..] == bytes[i + 1..];
      if |rest| > 1 { assert rest[2..] == bytes[i + 2..]; StringEndAt(bytes, i + 2); }
      StringEndAt(bytes, i + 1);
    }
  }

  /** The literal that starts at `start` is the front of the text there. */
  lemma QuotedEnd(bytes: string, start: nat)
    requires start < |bytes| && bytes[start] == '"'
    ensures Front(bytes[start..]) == Quoted(StringEnd(bytes, start + 1) - start)
  {
    assert bytes[start..][1..] == bytes[start + 1..];
    StringEndAt(bytes, start + 1);
  }

  lemma SliceStep(bytes: string, start: nat, i: nat)
    requires start <= i < |bytes|
    ensures bytes[start..i + 1] == bytes[start..i] + [bytes[i]]
    ensures Blank(bytes[start..i + 1]) == Blank(bytes[start..i]) + [BlankByte(bytes[i])]
  {
  }

  /** `copy_string`: copies the literal that starts at `start` and returns the index behind it. */
  method CopyString(bytes: string, output: string, start: nat) returns (out: string, index: nat)
    requires start < |bytes| && bytes[start] == '"'
    ensures start < index <= |bytes| && index == StringEnd(bytes, start + 1)
    ensures out == output + bytes[start..index]
  {
    out, index := output + [bytes[start]], start + 1;
    ghost var end := StringEnd(bytes, start + 1);
    while index < |bytes|
      invariant start < index <= |bytes|
      invariant out == output + bytes[start..index]
      invariant StringEnd(bytes, index) == end
    {
      var byte := bytes[index];
      SliceStep(bytes, start, index);
      out, index := out + [byte], index + 1;
      if byte == '\\' && index < |bytes| {
        SliceStep(bytes, start, index);
        out, index := out + [bytes[index]], index + 1;
        continue;
      }
      if byte == '"' {
        return;
      }
    }
  }

  /** `next_non_whitespace`. */
  method NextNonWhitespace(bytes: string, start: nat) returns (r: Option<char>)
    requires start <= |bytes|
    ensures r == NextNonSpace(bytes[start..])
  {
    var i := start;
    while i < |bytes| && IsSpace(bytes[i])
      invariant start <= i <= |bytes|
      invariant NextNonSpace(bytes[i..]) == NextNonSpace(bytes[start..])
    {
      assert bytes[i..][1..] == bytes[i + 1..];
      i := i + 1;
    }
    r := if i < |bytes| then Some(bytes[i]) else None;
  }

  /** `previous_non_whitespace`. */
  method PreviousNonWhitespace(bytes: string, end: nat) returns (r: Option<char>)
    requires end <= |bytes|
    ensures r == LastNonSpace(None, bytes[..end])
  {
    var i := end;
    while i > 0 && IsSpace(bytes[i - 1])
      invariant 0 <= i <= end
      invariant LastNonSpace(None, bytes[..i]) == LastNonSpace(None, bytes[..end])
    {
      assert bytes[..i][..i - 1] == bytes[..i - 1];
      i := i - 1;
    }
    r := if i > 0 then Some(bytes[i - 1]) else None;
  }

  /** Where the line comment ends whose inside is being blanked at index `i`. */
  function LineEnd(bytes: string, i: nat): nat
    decreases |bytes| - i
  {
    if i >= |bytes| then i else if IsLineEnding(bytes[i]) then i + 1 else LineEnd(bytes, i + 1)
  }

  lemma {:induction false} LineEndAt(bytes: string, i: nat)
    requires i <= |bytes|
    ensures LineEnd(bytes, i) == i + LineBody(bytes[i..])
    decreases |bytes| - i
  {
    if i < |bytes| {
      assert bytes[i..][1..] == bytes[i + 1..];
      LineEndAt(bytes, i + 1);
    }
  }

  /** The blanking loop of a line comment, from just behind `//`. */
  method BlankLine(bytes: string, output: string, start: nat) returns (out: string, index: nat)
    requires start <= |bytes|
    ensures start <= index <= |bytes| && index == LineEnd(bytes, start)
    ensures out == output + Blank(bytes[start..index])
  {
    out, index := output, start;
    while index < |bytes|
      invariant start <= index <= |bytes|
      invariant out == output + Blank(bytes[start..index])
      invariant LineEnd(bytes, index) == LineEnd(bytes, start)
    {
      var byte := bytes[index];
      SliceStep(bytes, start, index);
      if IsLineEnding(byte) {
        out := out + [byte];
      } else {
        out := out + [' '];
      }
      index := index + 1;
      if IsLineEnding(byte) {
        return;
      }
    }
  }

  predicate ClosesAt(bytes: string, i: nat) {
    i + 1 < |bytes| && bytes[i] == '*' && bytes[i + 1] == '/'
  }

  /** Where the block comment ends whose inside is being blanked at index `i`. */
  function BlockEnd(bytes: string, i: nat): Option<nat>
    decreases |bytes| - i
  {
    if i >= |bytes| then None else if ClosesAt(bytes, i) then Some(i + 2) else BlockEnd(bytes, i + 1)
  }

  lemma {:induction false} BlockEndAt(bytes: string, i: nat)
    requires i <= |bytes|
    ensures BlockEnd(bytes, i) == match BlockBody(bytes[i..]) case None => None case Some(n) => Some(i + n)
    decreases |bytes| - i
  {
    if i < |bytes| {
      assert bytes[i..][1..] == bytes[i + 1..];
      BlockEndAt(bytes, i + 1);
    }
  }

  /** The blanking loop of a block comment, from just behind its opening. */
  method BlankBlock(bytes: string, output: string, start: nat) returns (closed: bool, out: string, index: nat)
    requires start <= |bytes|
    ensures closed <==> BlockEnd(bytes, start).Some?
    ensures closed ==> start + 2 <= index <= |bytes| && BlockEnd(bytes, start) == Some(index)
    ensures closed ==> out == output + Blank(bytes[start..index])
  {
    closed, out, index := false, output, start;
    while index < |bytes|
      invariant start <= index <= |bytes| && !closed
      invariant out == output + Blank(bytes[start..index])
      invariant BlockEnd(bytes, index) == BlockEnd(bytes, start)
    {
      SliceStep(bytes, start, index);
      if bytes[index] == '*' && index + 1 < |bytes| && bytes[index + 1] == '/' {
        SliceStep(bytes, start, index + 1);
        out, index, closed := out + "  ", index + 2, true;
        return;
      }
      var byte := bytes[index];
      if IsLineEnding(byte) {
        out := out + [byte];
      } else {
        out := out + [' '];
      }
      index := index + 1;
    }
  }

  lemma PrependConcat(p: string, q: string, rest: Option<string>)
    ensures Prepend(p, Prepend(q, rest)) == Prepend(p + q, rest)
  {
    if rest.Some? { Assoc(p, q, rest.value); }
  }

  /** One turn of the loop: the piece at `i` ends at `j` and contributes `piece`. */
  lemma StripTurn(bytes: string, i: nat, j: nat, output: string, piece: string)
    requires i < j <= |bytes|
    requires match Front(bytes[i..])
             case Quoted(n) => j == i + n && piece == bytes[i..j]
             case Comment(n) => j == i + n && piece == Blank(bytes[i..j])
             case Unclosed => false
             case Plain => j == i + 1 && piece == [bytes[i]]
    ensures Prepend(output, Strip(bytes[i..])) == Prepend(output + piece, Strip(bytes[j..]))
  {
    var rest := bytes[i..];
    assert rest[j - i..] == bytes[j..] && rest[..j - i] == bytes[i..j];
    PrependConcat(output, piece, Strip(bytes[j..]));
  }

  /** `strip_jsonc_comments`. */
  method StripJsoncComments(contents: string) returns (r: Result<string>)
    requires Utf8.UtfOctets(contents)
    ensures r == match Strip(contents) case None => Err case Some(t) => Ok(t)
  {
    var output, index := "", 0;
    assert contents[0..] == contents;
    EmptyPrepend(Strip(contents));
    while index < |contents|
      invariant 0 <= index <= |contents|
      invariant Strip(contents) == Prepend(output, Strip(contents[index..]))
    {
      ghost var i, before := index, output;
      if contents[index] == '"' {
        output, index := CopyString(contents, output, index);
        QuotedEnd(contents, i);
        StripTurn(contents, i, index, before, contents[i..index]);
      } else if contents[index] == '/' && index + 1 < |contents| && contents[index + 1] == '/' {
        output, index := BlankLine(contents, output + "  ", index + 2);
        LineEndAt(contents, i + 2);
        CommentPieces(contents, i, index, before);
        StripTurn(contents, i, index, before, Blank(contents[i..index]));
      } else if contents[index] == '/' && index + 1 < |contents| && contents[index + 1] == '*' {
        var closed;
        closed, output, index := BlankBlock(contents, output + "  ", index + 2);
        BlockEndAt(contents, i + 2);
        assert contents[i..][2..] == contents[i + 2..];
        if !closed {
          return Err;
        }
        CommentPieces(contents, i, index, before);
        StripTurn(contents, i, index, before, Blank(contents[i..index]));
      } else {
        output, index := output + [contents[index]], index + 1;
        StripTurn(contents, i, index, before, [contents[i]]);
      }
    }
    assert contents[index..] == [] && output + "" == output;
    StrippedIsUtf8(contents);
    r := FromUtf8(output);
  }

  lemma StrippedIsUtf8(contents: string)
    requires Utf8.UtfOctets(contents) && Strip(contents).Some?
    ensures FromUtf8(Strip(contents).value) == Ok(Strip(contents).value)
  {
    Utf8.AutomatonIsGrammar(contents);
    StripKeepsUtf8(Utf8.Start, contents);
    Utf8.AutomatonIsGrammar(Strip(contents).value);
  }

  lemma EmptyPrepend(o: Option<string>)
    ensures Prepend("", o) == o
  {
    if o.Some? { assert "" + o.value == o.value; }
  }

  /** The two slashes or the slash and star are blanked first, the rest of the comment after them. */
  lemma CommentPieces(bytes: string, i: nat, j: nat, output: string)
    requires i + 2 <= j <= |bytes| && OpensComment(bytes[i..])
    ensures output + "  " + Blank(bytes[i + 2..j]) == output + Blank(bytes[i..j])
    ensures bytes[i..][2..] == bytes[i + 2..]
  {
    assert bytes[i..j] == [bytes[i], bytes[i + 1]] + bytes[i + 2..j];
    assert Blank(bytes[i..j]) == "  " + Blank(bytes[i + 2..j]);
  }

  /** `String::from_utf8`. */
  function FromUtf8(bytes: string): Result<string> {
    if Utf8.UtfOctets(bytes) then Ok(bytes) else Err
  }

  lemma {:induction false} LastOfConcat(p: Option<char>, a: string, b: string)
    ensures LastNonSpace(p, a + b) == LastNonSpace(LastNonSpace(p, a), b)
    decreases |b|
  {
    if b == [] {
      assert a + b == a;
    } else {
      assert (a + b)[|a + b| - 1] == b[|b| - 1];
      assert (a + b)[..|a + b| - 1] == a + b[..|b| - 1];
      LastOfConcat(p, a, b[..|b| - 1]);
    }
  }

  /** One turn of the loop over the piece from `i` to `j`. */
  lemma TrailTurn(bytes: string, i: nat, j: nat, output: string, piece: string)
    requires i < j <= |bytes|
    requires var p := LastNonSpace(None, bytes[..i]);
             if bytes[i] == '"' then j == i + Front(bytes[i..]).len && piece == bytes[i..j]
             else j == i + 1 && piece == [if IsTrailing(p, bytes[i..]) then ' ' else bytes[i]]
    ensures output + Trail(LastNonSpace(None, bytes[..i]), bytes[i..])
            == (output + piece) + Trail(LastNonSpace(None, bytes[..j]), bytes[j..])
  {
    var p := LastNonSpace(None, bytes[..i]);
    assert bytes[..j] == bytes[..i] + bytes[i..j];
    LastOfConcat(None, bytes[..i], bytes[i..j]);
    if bytes[i] == '"' {
      TrailQuotedPiece(p, bytes, i, j);
    } else {
      assert bytes[i..j] == [bytes[i]];
      LastOfByte(p, bytes[i]);
      assert bytes[i..][1..] == bytes[j..];
    }
    Assoc(output, piece, Trail(LastNonSpace(None, bytes[..j]), bytes[j..]));
  }

  lemma TrailQuotedPiece(p: Option<char>, bytes: string, i: nat, j: nat)
    requires i < j <= |bytes| && bytes[i] == '"' && j == i + Front(bytes[i..]).len
    ensures Trail(p, bytes[i..]) == bytes[i..j] + Trail(LastNonSpace(p, bytes[i..j]), bytes[j..])
  {
    assert bytes[i..][j - i..] == bytes[j..] && bytes[i..][..j - i] == bytes[i..j];
  }

  lemma LastOfByte(p: Option<char>, c: char)
    ensures LastNonSpace(p, [c]) == After(p, c)
  {
    assert [c][..0] == [];
  }

  /** `remove_trailing_commas`. */
  method RemoveTrailingCommas(contents: string) returns (r: Result<string>)
    requires Utf8.UtfOctets(contents)
    ensures r == Ok(Trail(None, contents))
  {
    var output, index := "", 0;
    assert contents[0..] == contents && contents[..0] == [] && "" + Trail(None, contents) == Trail(None, contents);
    while index < |contents|
      invariant 0 <= index <= |contents|
      invariant Trail(None, contents) == output + Trail(LastNonSpace(None, contents[..index]), contents[index..])
    {
      ghost var i, before := index, output;
      if contents[index] == '"' {
        output, index := CopyString(contents, output, index);
        QuotedEnd(contents, i);
        TrailTurn(contents, i, index, before, contents[i..index]);
      } else {
        var next := NextNonWhitespace(contents, index + 1);
        var previous := PreviousNonWhitespace(contents, index);
        assert contents[i..][1..] == contents[i + 1..];
        var byte := if contents[index] == ',' && IsCloser(next) && EndsValue(previous) then ' ' else contents[index];
        output, index := output + [byte], index + 1;
        TrailTurn(contents, i, index, before, [byte]);
      }
    }
    assert contents[index..] == [] && output + "" == output;
    Utf8.AutomatonIsGrammar(contents);
    TrailKeepsUtf8(Utf8.Start, None, contents);
    Utf8.AutomatonIsGrammar(output);
    r := FromUtf8(output);
  }

  /** `normalize_jsonc`: the only failure is an open block comment. */
  method NormalizeJsonc(contents: string) returns (r: Result<string>)
    requires Utf8.UtfOctets(contents)
    ensures r == match Normalize(contents) case None => Err case Some(t) => Ok(t)
  {
    var stripped := StripJsoncComments(contents);
    match stripped
    case Err => r := Err;
    case Ok(text) =>
      NormalizeKeepsUtf8(contents);
      r := RemoveTrailingCommas(text);
  }
}
