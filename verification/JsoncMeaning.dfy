/**
 What the JSONC normaliser means: the token stream before and after, and exactly when it fails.
 */
module JsoncMeaning {
  import opened Text
  import opened Jsonc

  // ----- tokens -----

  datatype Token = Literal(text: string) | Punct(c: char) | Word(text: string)

  /** A word continues until a space, a bracket, a separator, a quote or the start of a comment. */
  predicate InWord(s: string) {
    s != [] && !IsSpace(s[0]) && !IsPunct(s[0]) && s[0] != '"' && !OpensComment(s)
  }

  function WordLen(s: string): (n: nat)
    ensures n <= |s| && (InWord(s) ==> n > 0)
  {
    if InWord(s) then 1 + WordLen(s[1..]) else 0
  }

  /** The tokens of a text; comments and spaces only separate. */
  function Tokens(s: string): seq<Token> {
    if s == [] then []
    else
      match Front(s)
      case Quoted(n) => [Literal(s[..n])] + Tokens(s[n..])
      case Comment(n) => Tokens(s[n..])
      case Unclosed => []
      case Plain =>
        if IsSpace(s[0]) then Tokens(s[1..])
        else if IsPunct(s[0]) then [Punct(s[0])] + Tokens(s[1..])
        else [Word(s[..WordLen(s)])] + Tokens(s[WordLen(s)..])
  }

  // ----- comments -----

  lemma {:induction false} TokensOfBlank(c: string, u: string)
    ensures Tokens(Blank(c) + u) == Tokens(u)
  {
    if c == [] {
      assert Blank(c) + u == u;
    } else {
      assert (Blank(c) + u)[1..] == Blank(c[1..]) + u;
      TokensOfBlank(c[1..], u);
    }
  }

  /** A word is not cut or extended by stripping the comments behind it. */
  lemma {:induction false} WordOfStrip(s: string)
    requires InWord(s) && Strip(s).Some?
    ensures var n, t := WordLen(s), Strip(s).value;
            && InWord(t) && WordLen(t) == n && t[..n] == s[..n] && Strip(s[n..]) == Some(t[n..])
  {
    var t := Strip(s).value;
    var u := Strip(s[1..]).value;
    assert t == [s[0]] + u && t[1..] == u;
    StripHead(s[1..]);
    if s[1..] != [] { StripFront(s[1..]); }
    PlainStable(s, u);
    if InWord(s[1..]) {
      WordOfStrip(s[1..]);
      var n := WordLen(s);
      assert t[..n] == [s[0]] + u[..n - 1] && s[..n] == [s[0]] + s[1..][..n - 1];
      assert t[n..] == u[n - 1..] && s[n..] == s[1..][n - 1..];
    } else {
      assert s[..1] == [s[0]] && t[..1] == [s[0]];
    }
  }

  /** The first byte of a stripped text: a comment leaves a space, anything else is kept. */
  lemma StripFront(s: string)
    requires Strip(s).Some? && s != []
    ensures Strip(s).value != []
    ensures Strip(s).value[0] == if Front(s).Comment? then ' ' else s[0]
  {
  }

  /** Stripping comments leaves the token stream as it was. */
  lemma {:induction false} TokensOfStrip(s: string)
    requires Strip(s).Some?
    ensures Tokens(Strip(s).value) == Tokens(s)
    decreases |s|
  {
    var t := Strip(s).value;
    if s != [] {
      match Front(s)
      case Quoted(n) =>
        StripQuoted(s);
        TokensOfStrip(s[n..]);
      case Comment(n) =>
        TokensOfStrip(s[n..]);
        TokensOfBlank(s[..n], Strip(s[n..]).value);
      case Plain =>
        if InWord(s) {
          WordOfStrip(s);
          TokensOfStrip(s[WordLen(s)..]);
        } else {
          TokensOfStrip(s[1..]);
          assert t[1..] == Strip(s[1..]).value;
        }
    }
  }

  // ----- trailing commas -----

  predicate TokenEndsValue(t: Token) {
    match t
    case Literal(_) => true
    case Punct(c) => c == ']' || c == '}'
    case Word(w) => w != "" && IsValueEnd(w[|w| - 1])
  }

  predicate Closes(toks: seq<Token>) {
    toks != [] && (toks[0] == Punct(']') || toks[0] == Punct('}'))
  }

  /** Drops each comma that stands between the end of a value and a closing bracket. */
  function DropTrailing(afterValue: bool, toks: seq<Token>): (r: seq<Token>)
    ensures |r| <= |toks|
    decreases |toks|
  {
    if toks == [] then []
    else if toks[0] == Punct(',') && Closes(toks[1..]) && afterValue then DropTrailing(false, toks[1..])
    else [toks[0]] + DropTrailing(TokenEndsValue(toks[0]), toks[1..])
  }

  /** The next non-space byte is a closing bracket exactly when the next token is one. */
  lemma {:induction false} NextTokenCloses(s: string)
    requires Strip(s) == Some(s)
    ensures IsCloser(NextNonSpace(s)) <==> Closes(Tokens(s))
  {
    if s != [] {
      StrippedTail(s);
      if IsSpace(s[0]) {
        NextTokenCloses(s[1..]);
      }
    }
  }

  /** Word bytes are copied one by one, and the last of them is what the next comma looks back at. */
  lemma {:induction false} TrailWord(p: Option<char>, s: string)
    requires InWord(s) && Strip(s) == Some(s)
    ensures var n, t := WordLen(s), Trail(p, s);
            && InWord(t) && WordLen(t) == n && t[..n] == s[..n] && Strip(s[n..]) == Some(s[n..])
            && t[n..] == Trail(Some(s[n - 1]), s[n..])
    decreases |s|
  {
    StrippedTail(s);
    var t := Trail(p, s);
    var u := Trail(Some(s[0]), s[1..]);
    assert t == [s[0]] + u && t[1..] == u;
    TrailKeepsPositions(Some(s[0]), s[1..]);
    if InWord(s[1..]) {
      TrailWord(Some(s[0]), s[1..]);
      var n := WordLen(s);
      assert t[..n] == [s[0]] + u[..n - 1] && s[..n] == [s[0]] + s[1..][..n - 1];
      assert t[n..] == u[n - 1..] && s[n..] == s[1..][n - 1..];
    } else {
      assert s[..1] == [s[0]] && t[..1] == [s[0]];
      if s[1..] != [] && s[1] == '"' { TrailQuoted(Some(s[0]), s[1..]); }
    }
  }

  /** Blanking commas drops exactly the trailing comma tokens, and touches nothing if there are none. */
  lemma {:induction false} TokensOfTrail(p: Option<char>, s: string)
    requires Strip(s) == Some(s)
    ensures Tokens(Trail(p, s)) == DropTrailing(EndsValue(p), Tokens(s))
    ensures Trail(p, s) == s <==> DropTrailing(EndsValue(p), Tokens(s)) == Tokens(s)
    decreases |s|
  {
    if s != [] {
      StrippedTail(s);
      if s[0] == '"' {
        TokensOfTrailQuoted(p, s);
      } else if InWord(s) {
        TokensOfTrailWord(p, s);
      } else {
        TokensOfTrailByte(p, s);
      }
    }
  }

  lemma {:induction false} TokensOfTrailQuoted(p: Option<char>, s: string)
    requires Strip(s) == Some(s) && s != [] && s[0] == '"'
    ensures Tokens(Trail(p, s)) == DropTrailing(EndsValue(p), Tokens(s))
    ensures Trail(p, s) == s <==> DropTrailing(EndsValue(p), Tokens(s)) == Tokens(s)
    decreases |s|, 0
  {
    var n, t := Front(s).len, Trail(p, s);
    var q := LastNonSpace(p, s[..n]);
    StrippedTail(s);
    TrailQuoted(p, s);
    TokensOfTrail(q, s[n..]);
    assert Tokens(s)[1..] == Tokens(s[n..]);
    assert s == s[..n] + s[n..] && t == t[..n] + t[n..];
    if n < |s| { assert EndsValue(q); } else { assert s[n..] == []; }
    ConsEqual(Literal(s[..n]), Tokens(t[n..]), Tokens(s[n..]));
  }

  lemma {:induction false} TokensOfTrailWord(p: Option<char>, s: string)
    requires Strip(s) == Some(s) && InWord(s)
    ensures Tokens(Trail(p, s)) == DropTrailing(EndsValue(p), Tokens(s))
    ensures Trail(p, s) == s <==> DropTrailing(EndsValue(p), Tokens(s)) == Tokens(s)
    decreases |s|, 0
  {
    var n := WordLen(s);
    TrailWord(p, s);
    TokensOfTrail(Some(s[n - 1]), s[n..]);
    WordKept(EndsValue(p), s, Trail(p, s));
  }

  lemma WordKept(afterValue: bool, s: string, t: string)
    requires InWord(s) && InWord(t) && WordLen(t) == WordLen(s) && t[..WordLen(s)] == s[..WordLen(s)]
    requires var n, q := WordLen(s), Some(s[WordLen(s) - 1]);
             && Tokens(t[n..]) == DropTrailing(EndsValue(q), Tokens(s[n..]))
             && (t[n..] == s[n..] <==> DropTrailing(EndsValue(q), Tokens(s[n..])) == Tokens(s[n..]))
    ensures Tokens(t) == DropTrailing(afterValue, Tokens(s))
    ensures t == s <==> DropTrailing(afterValue, Tokens(s)) == Tokens(s)
  {
    var n := WordLen(s);
    var rest, dropped := Tokens(s[n..]), DropTrailing(EndsValue(Some(s[n - 1])), Tokens(s[n..]));
    WordTokens(s);
    WordTokens(t);
    DropWord(afterValue, s[..n], rest);
    ConsEqual(Word(s[..n]), dropped, rest);
    SameBehind(s, t, n);
  }

  lemma SameBehind(s: string, t: string, n: nat)
    requires n <= |s| && n <= |t| && t[..n] == s[..n]
    ensures t == s <==> t[n..] == s[n..]
  {
    assert s == s[..n] + s[n..] && t == t[..n] + t[n..];
  }

  lemma WordTokens(s: string)
    requires InWord(s)
    ensures Tokens(s) == [Word(s[..WordLen(s)])] + Tokens(s[WordLen(s)..])
  {
  }

  lemma DropWord(afterValue: bool, w: string, toks: seq<Token>)
    requires w != ""
    ensures DropTrailing(afterValue, [Word(w)] + toks) == [Word(w)] + DropTrailing(EndsValue(Some(w[|w| - 1])), toks)
  {
    assert ([Word(w)] + toks)[1..] == toks;
  }

  /** A space, a bracket, a colon or a comma. */
  lemma {:induction false} TokensOfTrailByte(p: Option<char>, s: string)
    requires Strip(s) == Some(s) && s != [] && s[0] != '"' && !InWord(s) && Front(s).Plain?
    ensures Tokens(Trail(p, s)) == DropTrailing(EndsValue(p), Tokens(s))
    ensures Trail(p, s) == s <==> DropTrailing(EndsValue(p), Tokens(s)) == Tokens(s)
    decreases |s|, 0
  {
    var t := Trail(p, s);
    StrippedTail(s);
    TokensOfTrail(After(p, s[0]), s[1..]);
    NextTokenCloses(s[1..]);
    assert t[1..] == Trail(After(p, s[0]), s[1..]);
    assert s == [s[0]] + s[1..] && t == [t[0]] + t[1..];
    if IsPunct(s[0]) {
      assert Tokens(s)[1..] == Tokens(s[1..]);
      ConsEqual(Punct(s[0]), Tokens(t[1..]), Tokens(s[1..]));
    }
  }

  lemma ConsEqual(x: Token, a: seq<Token>, b: seq<Token>)
    ensures [x] + a == [x] + b <==> a == b
  {
    assert ([x] + a)[1..] == a && ([x] + b)[1..] == b;
  }

  /**
   The normaliser preserves meaning: its output has the tokens of its input, string literals byte for byte,
   minus the trailing commas.
   */
  lemma NormalizePreservesTokens(s: string)
    requires Normalize(s).Some?
    ensures Tokens(Normalize(s).value) == DropTrailing(false, Tokens(s))
  {
    StripIdempotent(s);
    TokensOfStrip(s);
    TokensOfTrail(None, Strip(s).value);
  }

  // ----- when nothing changes -----

  /** A comment stands outside every string literal of `s`. */
  predicate HasComment(s: string) {
    s != [] &&
    match Front(s)
    case Quoted(n) => HasComment(s[n..])
    case Comment(_) => true
    case Unclosed => true
    case Plain => HasComment(s[1..])
  }

  lemma {:induction false} CommentFree(s: string)
    ensures Strip(s) == Some(s) <==> !HasComment(s)
  {
    if s != [] {
      match Front(s)
      case Quoted(n) =>
        CommentFree(s[n..]);
        assert s == s[..n] + s[n..];
        if Strip(s) == Some(s) { StrippedTail(s); }
      case Comment(n) => if Strip(s) == Some(s) { StrippedTail(s); }
      case Unclosed =>
      case Plain =>
        CommentFree(s[1..]);
        assert s == [s[0]] + s[1..];
        if Strip(s) == Some(s) { StrippedTail(s); }
    }
  }

  lemma {:induction false} StripIsSlashFree(s: string)
    requires HasComment(s) && Strip(s).Some?
    ensures |Strip(s).value| == |s|
    ensures exists i :: 0 <= i < |s| && s[i] == '/' && Strip(s).value[i] == ' '
  {
    StripKeepsPositions(s);
    var t := Strip(s).value;
    match Front(s)
    case Quoted(n) =>
      StripIsSlashFree(s[n..]);
      var i :| 0 <= i < |s[n..]| && s[n..][i] == '/' && Strip(s[n..]).value[i] == ' ';
      assert s[n + i] == '/' && t[n + i] == ' ';
    case Comment(n) => assert s[0] == '/' && t[0] == ' ';
    case Plain =>
      StripIsSlashFree(s[1..]);
      var i :| 0 <= i < |s[1..]| && s[1..][i] == '/' && Strip(s[1..]).value[i] == ' ';
      assert s[1 + i] == '/' && t[1 + i] == ' ';
  }

  /** A text is returned unchanged exactly when it has no comment and no trailing comma outside strings. */
  lemma UnchangedExactly(s: string)
    ensures Normalize(s) == Some(s) <==> !HasComment(s) && DropTrailing(false, Tokens(s)) == Tokens(s)
  {
    CommentFree(s);
    if Strip(s) == Some(s) {
      TokensOfTrail(None, s);
    } else if Strip(s).Some? {
      StripIsSlashFree(s);
      var i :| 0 <= i < |s| && s[i] == '/' && Strip(s).value[i] == ' ';
      TrailKeepsPositions(None, Strip(s).value);
      assert Normalize(s).value[i] != s[i];
    }
  }

  // ----- JSON scalars -----

  predicate Digits(w: string) {
    w != "" && forall i :: 0 <= i < |w| ==> IsDigit(w[i])
  }

  /** `number` of RFC 8259, section 6: an integer part, then an optional fraction, then an optional exponent. */
  ghost predicate IsNumber(w: string) {
    exists sign, whole, frac, exponent ::
      && w == sign + (whole + (frac + exponent))
      && (sign == "" || sign == "-")
      && Digits(whole) && (whole[0] == '0' ==> |whole| == 1)
      && (frac == "" || (frac[0] == '.' && Digits(frac[1..])))
      && (exponent == "" || IsExponent(exponent))
  }

  predicate IsExponent(e: string) {
    && |e| > 1 && (e[0] == 'e' || e[0] == 'E')
    && (Digits(e[1..]) || ((e[1] == '+' || e[1] == '-') && Digits(e[2..])))
  }

  ghost predicate IsScalar(w: string) {
    w == "true" || w == "false" || w == "null" || IsNumber(w)
  }

  ghost predicate JsonWords(toks: seq<Token>) {
    forall i :: 0 <= i < |toks| && toks[i].Word? ==> IsScalar(toks[i].text)
  }

  /** The comma rule of JSONC, with no look at any byte: a value is a literal, a word or a closed bracket. */
  predicate IsValueToken(t: Token) {
    t.Literal? || t.Word? || t == Punct(']') || t == Punct('}')
  }

  function DropTrailingCommas(afterValue: bool, toks: seq<Token>): seq<Token>
    decreases |toks|
  {
    if toks == [] then []
    else if toks[0] == Punct(',') && Closes(toks[1..]) && afterValue then DropTrailingCommas(false, toks[1..])
    else [toks[0]] + DropTrailingCommas(IsValueToken(toks[0]), toks[1..])
  }

  lemma NumberEndsInDigit(sign: string, whole: string, frac: string, exponent: string)
    requires Digits(whole) && (frac == "" || Digits(frac[1..])) && (exponent == "" || IsExponent(exponent))
    ensures var w := sign + (whole + (frac + exponent)); w != "" && IsDigit(w[|w| - 1])
  {
    var w := sign + (whole + (frac + exponent));
    if exponent != "" {
      assert w[|w| - 1] == exponent[|exponent| - 1];
      if Digits(exponent[1..]) {
        assert exponent[1..][|exponent| - 2] == exponent[|exponent| - 1];
      } else {
        assert exponent[2..][|exponent| - 3] == exponent[|exponent| - 1];
      }
    } else if frac != "" {
      assert w[|w| - 1] == frac[|frac| - 1] == frac[1..][|frac| - 2];
    } else {
      assert w[|w| - 1] == whole[|whole| - 1];
    }
  }

  lemma ScalarEndsValue(w: string)
    requires IsScalar(w)
    ensures TokenEndsValue(Word(w))
  {
    if IsNumber(w) {
      var sign, whole, frac, exponent :|
        && w == sign + (whole + (frac + exponent))
        && (sign == "" || sign == "-")
        && Digits(whole) && (whole[0] == '0' ==> |whole| == 1)
        && (frac == "" || (frac[0] == '.' && Digits(frac[1..])))
        && (exponent == "" || IsExponent(exponent));
      NumberEndsInDigit(sign, whole, frac, exponent);
    }
  }

  lemma {:induction false} JsonWordsDrop(afterValue: bool, toks: seq<Token>)
    requires JsonWords(toks)
    ensures DropTrailing(afterValue, toks) == DropTrailingCommas(afterValue, toks)
    decreases |toks|
  {
    if toks != [] {
      if toks[0].Word? { ScalarEndsValue(toks[0].text); }
      assert forall i :: 0 <= i < |toks[1..]| ==> toks[1..][i] == toks[i + 1];
      JsonWordsDrop(false, toks[1..]);
      JsonWordsDrop(TokenEndsValue(toks[0]), toks[1..]);
    }
  }

  /** For a text whose bare words are JSON literals and numbers, exactly the JSONC trailing commas go. */
  lemma NormalizeDropsTrailingCommas(s: string)
    requires Normalize(s).Some? && JsonWords(Tokens(s))
    ensures Tokens(Normalize(s).value) == DropTrailingCommas(false, Tokens(s))
  {
    NormalizePreservesTokens(s);
    JsonWordsDrop(false, Tokens(s));
  }

  // ----- failure -----

  /** A scanner that reads one byte at a time and only knows what kind of text it is in. */
  datatype Mode = Code | Slash | InString | Escaped | InLine | InBlock | InBlockStar

  function Scan(m: Mode, c: char): Mode {
    match m
    case Code => if c == '"' then InString else if c == '/' then Slash else Code
    case Slash => if c == '/' then InLine else if c == '*' then InBlock else if c == '"' then InString else Code
    case InString => if c == '\\' then Escaped else if c == '"' then Code else InString
    case Escaped => InString
    case InLine => if IsLineEnding(c) then Code else InLine
    case InBlock => if c == '*' then InBlockStar else InBlock
    case InBlockStar => if c == '/' then Code else if c == '*' then InBlockStar else InBlock
  }

  function ScanAll(m: Mode, s: string): Mode
    decreases |s|
  {
    if s == [] then m else ScanAll(Scan(m, s[0]), s[1..])
  }

  predicate InOpenBlock(m: Mode) {
    m.InBlock? || m.InBlockStar?
  }

  lemma {:induction false} ScanConcat(m: Mode, a: string, b: string)
    ensures ScanAll(m, a + b) == ScanAll(ScanAll(m, a), b)
    decreases |a|
  {
    if a == [] {
      assert a + b == b;
    } else {
      assert (a + b)[0] == a[0] && (a + b)[1..] == a[1..] + b;
      ScanConcat(Scan(m, a[0]), a[1..], b);
    }
  }

  lemma {:induction false} ScanString(t: string)
    ensures var n := StringBody(t);
            ScanAll(InString, t[..n]) == Code || (n == |t| && ScanAll(InString, t) in {InString, Escaped})
  {
    var n := StringBody(t);
    if t == [] {
    } else if t[0] == '\\' && |t| > 1 {
      ScanString(t[2..]);
      assert t[..n][1..] == t[1..n] && t[1..n][1..] == t[2..n] == t[2..][..n - 2];
      assert t[1..][1..] == t[2..];
    } else if t[0] == '"' {
      assert t[..1][1..] == [];
    } else {
      ScanString(t[1..]);
      assert t[..n][1..] == t[1..][..n - 1];
    }
  }

  lemma {:induction false} ScanLine(t: string)
    ensures var n := LineBody(t);
            ScanAll(InLine, t[..n]) == Code || (n == |t| && ScanAll(InLine, t) == InLine)
  {
    var n := LineBody(t);
    if t != [] {
      if IsLineEnding(t[0]) {
        assert t[..1][1..] == [];
      } else {
        ScanLine(t[1..]);
        assert t[..n][1..] == t[1..][..n - 1];
      }
    }
  }

  /** `star` says that the byte before `t` was a `*` inside the comment. */
  lemma {:induction false} ScanBlock(t: string, star: bool)
    requires star ==> t == [] || t[0] != '/'
    ensures match BlockBody(t)
            case Some(n) => ScanAll(if star then InBlockStar else InBlock, t[..n]) == Code
            case None => InOpenBlock(ScanAll(if star then InBlockStar else InBlock, t))
  {
    if t == [] {
    } else if t[0] == '*' && |t| > 1 && t[1] == '/' {
      var m := if star then InBlockStar else InBlock;
      assert t[..2][1..] == [t[1]] && [t[1]][1..] == [];
      assert ScanAll(m, t[..2]) == ScanAll(InBlockStar, [t[1]]) == ScanAll(Code, []);
    } else {
      ScanBlock(t[1..], t[0] == '*');
      if BlockBody(t).Some? {
        var n := BlockBody(t).value;
        assert t[..n][1..] == t[1..][..n - 1];
      }
    }
  }

  lemma ScanQuoted(s: string)
    requires s != [] && s[0] == '"'
    ensures var n := Front(s).len;
            ScanAll(Code, s[..n]) == Code || (n == |s| && !InOpenBlock(ScanAll(Code, s)))
  {
    var n := Front(s).len;
    ScanString(s[1..]);
    assert s[..n][1..] == s[1..][..n - 1];
  }

  lemma ScanComment(s: string)
    requires s != [] && Front(s).Comment?
    ensures var n := Front(s).len;
            ScanAll(Code, s[..n]) == Code || (n == |s| && !InOpenBlock(ScanAll(Code, s)))
  {
    var n := Front(s).len;
    assert s[..n][1..] == s[1..n] && s[1..n][1..] == s[2..][..n - 2] && s[1..][1..] == s[2..];
    if s[1] == '/' { ScanLine(s[2..]); } else { ScanBlock(s[2..], false); }
  }

  lemma ScanUnclosed(s: string)
    requires s != [] && Front(s).Unclosed?
    ensures InOpenBlock(ScanAll(Code, s))
  {
    ScanBlock(s[2..], false);
    assert s[1..][1..] == s[2..];
  }

  lemma ScanPlain(s: string)
    requires s != [] && Front(s).Plain?
    ensures InOpenBlock(ScanAll(Code, s)) == InOpenBlock(ScanAll(Code, s[1..]))
  {
    if s[0] == '/' && |s| > 1 {
      assert Scan(Slash, s[1]) == Scan(Code, s[1]);
    }
  }

  /**
   Normalising fails exactly when a block comment is opened outside every string and comment and never closes:
   a byte-at-a-time scan of the whole text ends inside a block comment.
   */
  lemma {:induction false} FailsExactlyOnOpenBlock(s: string)
    ensures Normalize(s).None? <==> InOpenBlock(ScanAll(Code, s))
    decreases |s|
  {
    if s != [] {
      match Front(s)
      case Quoted(n) =>
        ScanQuoted(s);
        ScanPiece(s, n);
        FailsExactlyOnOpenBlock(s[n..]);
      case Comment(n) =>
        ScanComment(s);
        ScanPiece(s, n);
        FailsExactlyOnOpenBlock(s[n..]);
      case Unclosed => ScanUnclosed(s);
      case Plain =>
        ScanPlain(s);
        FailsExactlyOnOpenBlock(s[1..]);
    }
  }

  lemma ScanPiece(s: string, n: nat)
    requires n <= |s|
    ensures ScanAll(Code, s) == ScanAll(ScanAll(Code, s[..n]), s[n..])
  {
    assert s == s[..n] + s[n..];
    ScanConcat(Code, s[..n], s[n..]);
  }
}
