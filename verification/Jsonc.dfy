/**
 src/devcontainer/json.rs: the JSONC normaliser, as functions from bytes to bytes. A byte is a `char`.

 The text is consumed front to back: `Front` says what the next piece is, and the two passes copy or
 blank it.
 */
module Jsonc {
  import opened Text

  predicate IsSpace(c: char) {
    c == ' ' || c == '\t' || c == '\n' || c == '\r' || c == '\U{0C}'
  }

  predicate IsLineEnding(c: char) {
    c == '\n' || c == '\r'
  }

  predicate IsValueEnd(c: char) {
    c == '"' || c == ']' || c == '}' || IsDigit(c) || c == 'e' || c == 'E' || c == 'l'
  }

  predicate IsPunct(c: char) {
    c == '[' || c == ']' || c == '{' || c == '}' || c == ',' || c == ':'
  }

  // ----- pieces of the text -----

  /** Bytes of a string literal after its opening quote, closing quote included. */
  function StringBody(t: string): (n: nat)
    ensures n <= |t|
    ensures n < |t| ==> n > 0 && t[n - 1] == '"'
  {
    if t == [] then 0
    else if t[0] == '\\' && |t| > 1 then 2 + StringBody(t[2..])
    else if t[0] == '"' then 1
    else 1 + StringBody(t[1..])
  }

  /** Bytes of a line comment after `//`, its line ending included. */
  function LineBody(t: string): (n: nat)
    ensures n <= |t|
    ensures n < |t| ==> n > 0 && IsLineEnding(t[n - 1])
  {
    if t == [] then 0 else if IsLineEnding(t[0]) then 1 else 1 + LineBody(t[1..])
  }

  /** Bytes of a block comment after its opening, closing included; `None` if it never closes. */
  function BlockBody(t: string): (n: Option<nat>)
    ensures n.Some? ==> 2 <= n.value <= |t| && t[n.value - 1] == '/'
  {
    if t == [] then None
    else if t[0] == '*' && |t| > 1 && t[1] == '/' then Some(2)
    else
      match BlockBody(t[1..])
      case None => None
      case Some(n) => Some(1 + n)
  }

  datatype Piece = Quoted(len: nat) | Comment(len: nat) | Unclosed | Plain

  predicate OpensComment(s: string) {
    |s| > 1 && s[0] == '/' && (s[1] == '/' || s[1] == '*')
  }

  function Front(s: string): (p: Piece)
    requires s != []
    ensures p.Quoted? || p.Comment? ==> 1 <= p.len <= |s|
    ensures p.Quoted? <==> s[0] == '"'
    ensures p.Comment? || p.Unclosed? <==> OpensComment(s)
  {
    if s[0] == '"' then Quoted(1 + StringBody(s[1..]))
    else if !OpensComment(s) then Plain
    else if s[1] == '/' then Comment(2 + LineBody(s[2..]))
    else
      match BlockBody(s[2..])
      case None => Unclosed
      case Some(n) => Comment(2 + n)
  }

  // ----- the two passes -----

  function BlankByte(c: char): char {
    if IsLineEnding(c) then c else ' '
  }

  function Blank(s: string): (t: string)
    ensures |t| == |s| && forall i :: 0 <= i < |s| ==> t[i] == BlankByte(s[i])
  {
    seq(|s|, i requires 0 <= i < |s| => BlankByte(s[i]))
  }

  function Prepend(p: string, rest: Option<string>): Option<string> {
    match rest
    case None => None
    case Some(r) => Some(p + r)
  }

  /** `strip_jsonc_comments`. */
  function Strip(s: string): Option<string> {
    if s == [] then Some([])
    else
      match Front(s)
      case Quoted(n) => Prepend(s[..n], Strip(s[n..]))
      case Comment(n) => Prepend(Blank(s[..n]), Strip(s[n..]))
      case Unclosed => None
      case Plain => Prepend([s[0]], Strip(s[1..]))
  }

  function NextNonSpace(s: string): Option<char> {
    if s == [] then None else if IsSpace(s[0]) then NextNonSpace(s[1..]) else Some(s[0])
  }

  /** The last non-space byte of `s`, or `before` if there is none. */
  function LastNonSpace(before: Option<char>, s: string): Option<char> {
    if s == [] then before
    else if IsSpace(s[|s| - 1]) then LastNonSpace(before, s[..|s| - 1])
    else Some(s[|s| - 1])
  }

  function After(before: Option<char>, c: char): Option<char> {
    if IsSpace(c) then before else Some(c)
  }

  predicate EndsValue(previous: Option<char>) {
    previous.Some? && IsValueEnd(previous.value)
  }

  predicate IsCloser(next: Option<char>) {
    next == Some(']') || next == Some('}')
  }

  predicate IsTrailing(previous: Option<char>, s: string) {
    s != [] && s[0] == ',' && IsCloser(NextNonSpace(s[1..])) && EndsValue(previous)
  }

  /** `remove_trailing_commas` on the suffix `s`, where `previous` is the last non-space byte before it. */
  function Trail(previous: Option<char>, s: string): string
    decreases |s|
  {
    if s == [] then []
    else if s[0] == '"' then
      var n := Front(s).len;
      s[..n] + Trail(LastNonSpace(previous, s[..n]), s[n..])
    else
      [if IsTrailing(previous, s) then ' ' else s[0]] + Trail(After(previous, s[0]), s[1..])
  }

  /** `normalize_jsonc`. */
  function Normalize(s: string): Option<string> {
    match Strip(s)
    case None => None
    case Some(t) => Some(Trail(None, t))
  }

  // ----- positions -----

  /** `t` is `s` with some bytes that are not line endings turned into spaces. */
  ghost predicate BlanksOf(t: string, s: string) {
    |t| == |s| && forall i :: 0 <= i < |s| ==> t[i] == s[i] || (t[i] == ' ' && !IsLineEnding(s[i]))
  }

  lemma BlanksConcat(t: string, s: string, u: string, v: string)
    requires BlanksOf(t, s) && BlanksOf(u, v)
    ensures BlanksOf(t + u, s + v)
  {
  }

  lemma {:induction false} StripKeepsPositions(s: string)
    requires Strip(s).Some?
    ensures BlanksOf(Strip(s).value, s)
  {
    if s != [] {
      var n := match Front(s) case Quoted(n) => n case Comment(n) => n case _ => 1;
      StripKeepsPositions(s[n..]);
      assert s == s[..n] + s[n..];
      assert Front(s).Plain? ==> s[..1] == [s[0]];
      BlanksConcat(if Front(s).Comment? then Blank(s[..n]) else s[..n], s[..n], Strip(s[n..]).value, s[n..]);
    }
  }

  lemma {:induction false} TrailKeepsPositions(p: Option<char>, s: string)
    ensures BlanksOf(Trail(p, s), s)
    decreases |s|
  {
    if s != [] {
      if s[0] == '"' {
        var n := Front(s).len;
        TrailKeepsPositions(LastNonSpace(p, s[..n]), s[n..]);
        assert s == s[..n] + s[n..];
      } else {
        TrailKeepsPositions(After(p, s[0]), s[1..]);
      }
    }
  }

  /** Byte positions survive: same length, only non-line-ending bytes changed, and only into spaces. */
  lemma NormalizeKeepsPositions(s: string)
    requires Normalize(s).Some?
    ensures BlanksOf(Normalize(s).value, s)
    ensures forall i :: 0 <= i < |s| ==> (IsLineEnding(Normalize(s).value[i]) <==> IsLineEnding(s[i]))
  {
    StripKeepsPositions(s);
    TrailKeepsPositions(None, Strip(s).value);
  }

  // ----- string literals survive a change behind them -----

  lemma CopyThen(t: string, n: nat, u: string, k: nat)
    requires k <= n <= |t|
    ensures (t[..n] + u)[k..] == t[k..][..n - k] + u
    ensures forall i :: 0 <= i < n ==> (t[..n] + u)[i] == t[i]
  {
  }

  /** A literal that was closed, or that ran to the end, has the same extent before any other tail. */
  lemma {:induction false} StringBodyStable(t: string, u: string)
    requires StringBody(t) < |t| || u == []
    ensures StringBody(t[..StringBody(t)] + u) == StringBody(t)
  {
    var n := StringBody(t);
    if u == [] && n == |t| {
      assert t[..n] + u == t;
    } else if t[0] == '\\' && |t| > 1 {
      CopyThen(t, n, u, 2);
      StringBodyStable(t[2..], u);
    } else if t[0] == '"' {
      CopyThen(t, n, u, 1);
    } else {
      CopyThen(t, n, u, 1);
      StringBodyStable(t[1..], u);
    }
  }

  lemma QuotedStable(s: string, u: string)
    requires s != [] && s[0] == '"'
    requires Front(s).len < |s| || u == []
    ensures var n := Front(s).len; Front(s[..n] + u) == Quoted(n)
  {
    var n := Front(s).len;
    StringBodyStable(s[1..], u);
    assert (s[..n] + u)[1..] == s[1..][..n - 1] + u;
  }

  lemma StripQuoted(s: string)
    requires s != [] && s[0] == '"' && Strip(s).Some?
    ensures var n, t := Front(s).len, Strip(s).value;
            && t[..n] == s[..n] && Front(t) == Quoted(n) && Strip(s[n..]) == Some(t[n..]) && t != [] && t[0] == '"'
  {
    var n := Front(s).len;
    if n == |s| { assert s[n..] == []; }
    QuotedStable(s, Strip(s[n..]).value);
  }

  lemma TrailQuoted(p: Option<char>, s: string)
    requires s != [] && s[0] == '"'
    ensures var n, t := Front(s).len, Trail(p, s);
            && t[..n] == s[..n] && Front(t) == Quoted(n) && t != [] && t[0] == '"'
            && Trail(LastNonSpace(p, s[..n]), s[n..]) == t[n..]
  {
    var n := Front(s).len;
    if n == |s| { assert s[n..] == []; }
    QuotedStable(s, Trail(LastNonSpace(p, s[..n]), s[n..]));
  }

  lemma {:induction false} LastOfQuoted(p: Option<char>, q: Option<char>, s: string)
    requires s != [] && !IsSpace(s[0])
    ensures LastNonSpace(p, s) == LastNonSpace(q, s) && LastNonSpace(p, s).Some?
  {
    if |s| > 1 && IsSpace(s[|s| - 1]) {
      LastOfQuoted(p, q, s[..|s| - 1]);
    }
  }

  // ----- idempotence -----

  /** A single `/` does not open a comment after blanking what follows it. */
  lemma PlainStable(s: string, u: string)
    requires s != [] && Front(s).Plain?
    requires u == [] || (|s| > 1 && (u[0] == s[1] || u[0] == ' ' || IsLineEnding(u[0])))
    ensures Front([s[0]] + u).Plain?
  {
  }

  lemma StripHead(s: string)
    requires Strip(s).Some?
    ensures s == [] <==> Strip(s).value == []
    ensures s != [] ==> Strip(s).value[0] == s[0] || Strip(s).value[0] == ' '
  {
    StripKeepsPositions(s);
  }

  /** A text without comments passes through, so stripping twice is stripping once. */
  lemma {:induction false} StripIdempotent(s: string)
    requires Strip(s).Some?
    ensures Strip(Strip(s).value) == Strip(s)
  {
    var t := Strip(s).value;
    if s != [] {
      match Front(s)
      case Quoted(n) =>
        StripQuoted(s);
        StripIdempotent(s[n..]);
        assert t == t[..n] + t[n..];
      case Comment(n) =>
        StripIdempotent(s[n..]);
        StripBlank(s[..n], Strip(s[n..]).value);
      case Plain =>
        StripIdempotent(s[1..]);
        StripHead(s[1..]);
        PlainStable(s, Strip(s[1..]).value);
        assert t[1..] == Strip(s[1..]).value;
    }
  }

  lemma {:induction false} StripBlank(c: string, u: string)
    requires Strip(u) == Some(u)
    ensures Strip(Blank(c) + u) == Some(Blank(c) + u)
  {
    if c == [] {
      assert Blank(c) + u == u;
    } else {
      var t := Blank(c) + u;
      assert t[1..] == Blank(c[1..]) + u;
      StripBlank(c[1..], u);
      assert t == [t[0]] + t[1..];
    }
  }

  /** Blanking commas opens no comment. */
  lemma {:induction false} TrailStaysStripped(p: Option<char>, s: string)
    requires Strip(s) == Some(s)
    ensures Strip(Trail(p, s)) == Some(Trail(p, s))
    decreases |s|
  {
    var t := Trail(p, s);
    if s != [] {
      StrippedTail(s);
      if s[0] == '"' {
        var n := Front(s).len;
        TrailQuoted(p, s);
        TrailStaysStripped(LastNonSpace(p, s[..n]), s[n..]);
        assert t == t[..n] + t[n..];
      } else {
        TrailStaysStripped(After(p, s[0]), s[1..]);
        TrailKeepsPositions(After(p, s[0]), s[1..]);
        assert t[1..] == Trail(After(p, s[0]), s[1..]);
        assert Front(t).Plain?;
      }
    }
  }

  /** What a comment-free text looks like at its front. */
  lemma StrippedTail(s: string)
    requires Strip(s) == Some(s) && s != []
    ensures Front(s).Quoted? || Front(s).Plain?
    ensures var n := if s[0] == '"' then Front(s).len else 1; Strip(s[n..]) == Some(s[n..])
  {
    var n := if s[0] == '"' then Front(s).len else 1;
    assert s[n..] == Strip(s).value[n..] == Strip(s[n..]).value;
  }

  lemma {:induction false} NextKept(p: Option<char>, s: string)
    requires !EndsValue(p)
    ensures NextNonSpace(Trail(p, s)) == NextNonSpace(s)
  {
    if s != [] {
      if s[0] == '"' {
        TrailQuoted(p, s);
      } else if IsSpace(s[0]) {
        NextKept(p, s[1..]);
        assert Trail(p, s)[1..] == Trail(p, s[1..]);
      }
    }
  }

  /** Blanking one comma never makes a kept comma trailing. */
  lemma {:induction false} TrailIdempotent(p: Option<char>, q: Option<char>, s: string)
    requires p == q || NextNonSpace(s) != Some(',')
    ensures Trail(q, Trail(p, s)) == Trail(p, s)
    decreases |s|
  {
    var t := Trail(p, s);
    if s != [] {
      if s[0] == '"' {
        var n := Front(s).len;
        TrailQuoted(p, s);
        LastOfQuoted(p, q, s[..n]);
        TrailIdempotent(LastNonSpace(p, s[..n]), LastNonSpace(q, s[..n]), s[n..]);
        assert t == t[..n] + t[n..];
      } else {
        assert t[1..] == Trail(After(p, s[0]), s[1..]);
        assert t == [t[0]] + t[1..];
        if IsTrailing(p, s) {
          TrailIdempotent(Some(','), q, s[1..]);
        } else if s[0] == ',' {
          NextKept(Some(','), s[1..]);
          TrailIdempotent(Some(','), Some(','), s[1..]);
        } else {
          TrailIdempotent(After(p, s[0]), After(q, s[0]), s[1..]);
        }
      }
    }
  }

  /** Normalising a normalised text succeeds and changes nothing. */
  lemma NormalizeIdempotent(s: string)
    requires Normalize(s).Some?
    ensures Normalize(Normalize(s).value) == Normalize(s)
    ensures Strip(Normalize(s).value) == Normalize(s)
  {
    var t := Strip(s).value;
    StripIdempotent(s);
    TrailStaysStripped(None, t);
    TrailIdempotent(None, None, t);
  }
}
