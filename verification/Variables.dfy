/**
 src/config/variables.rs: `${...}` expansion in one left-to-right pass, with tracking of what was read from
 the local environment. `LocalEnv` is the process environment for the duration of one call.
 */
module Variables {
  import opened Text

  datatype EnvValue = Set(value: string) | Unset | NotUnicode

  type LocalEnv = string -> EnvValue

  datatype Sensitive = Sensitive(value: string, redactions: seq<string>)

  datatype Context = Context(
    localWorkspaceFolder: string, localWorkspaceFolderBasename: string,
    containerWorkspaceFolder: string, containerWorkspaceFolderBasename: string,
    devcontainerId: string, uid: nat, gid: nat, remoteUser: string, remoteUserHome: Option<string>,
    containerEnv: map<string, string>, sensitiveContainerEnv: map<string, Sensitive>)

  /** An expanded text and the values in it that must be redacted. */
  datatype Expanded = Expanded(value: string, redactions: seq<string>)

  // ----- templates -----

  /** `find("${")`. */
  function FindOpen(s: string): (r: Option<nat>)
    ensures r.Some? ==> r.value + 2 <= |s| && s[r.value] == '$' && s[r.value + 1] == '{'
  {
    if |s| < 2 then None
    else if s[0] == '$' && s[1] == '{' then Some(0)
    else
      match FindOpen(s[1..])
      case None => None
      case Some(i) => Some(i + 1)
  }

  datatype Split = Split(prefix: string, expression: string, rest: string)

  /** `split_variable_expression` at the opening found at `start`; fails if it is never closed. */
  function SplitAt(s: string, start: nat): (r: Option<Split>)
    requires start + 2 <= |s|
    ensures r.Some? ==> |r.value.rest| < |s|
  {
    var after := s[start + 2..];
    match First(after, '}')
    case None => None
    case Some(end) => Some(Split(s[..start], after[..end], after[end + 1..]))
  }

  datatype Part = Part(prefix: string, expression: string)

  /** Literal text and expressions in turn, then the text behind the last expression. */
  datatype Template = Template(parts: seq<Part>, tail: string)

  function Parse(s: string): Option<Template>
    decreases |s|
  {
    match FindOpen(s)
    case None => Some(Template([], s))
    case Some(start) =>
      match SplitAt(s, start)
      case None => None
      case Some(split) =>
        match Parse(split.rest)
        case None => None
        case Some(t) => Some(Template([Part(split.prefix, split.expression)] + t.parts, t.tail))
  }

  function PrintParts(parts: seq<Part>, tail: string): string {
    if parts == [] then tail
    else parts[0].prefix + ("${" + (parts[0].expression + ("}" + PrintParts(parts[1..], tail))))
  }

  function Print(t: Template): string {
    PrintParts(t.parts, t.tail)
  }

  /** Literals contain no opening and expressions no closing. */
  ghost predicate Proper(t: Template) {
    && FindOpen(t.tail).None?
    && forall i :: 0 <= i < |t.parts| ==> FindOpen(t.parts[i].prefix).None? && '}' !in t.parts[i].expression
  }

  lemma {:induction false} NoOpenInPrefix(s: string, n: nat)
    requires n <= |s| && (FindOpen(s).None? || n <= FindOpen(s).value)
    ensures FindOpen(s[..n]).None?
  {
    if n >= 2 {
      NoOpenInPrefix(s[1..], n - 1);
      assert s[..n][1..] == s[1..][..n - 1];
    }
  }

  /** An opening is found where the literal before it ends. */
  lemma {:induction false} FindOpenAfter(prefix: string, rest: string)
    requires FindOpen(prefix).None? && |rest| >= 2 && rest[0] == '$' && rest[1] == '{'
    ensures FindOpen(prefix + rest) == Some(|prefix|)
  {
    if prefix == [] {
      assert prefix + rest == rest;
    } else {
      FindOpenAfter(prefix[1..], rest);
      assert (prefix + rest)[1..] == prefix[1..] + rest;
    }
  }

  lemma PrintCons(p: Part, t: Template)
    ensures Print(Template([p] + t.parts, t.tail)) == p.prefix + ("${" + (p.expression + ("}" + Print(t))))
  {
    assert ([p] + t.parts)[1..] == t.parts;
  }

  lemma SplitRebuilds(s: string, start: nat)
    requires FindOpen(s) == Some(start) && SplitAt(s, start).Some?
    ensures var split := SplitAt(s, start).value;
            && s == split.prefix + ("${" + (split.expression + ("}" + split.rest)))
            && FindOpen(split.prefix).None? && '}' !in split.expression
  {
    NoOpenInPrefix(s, start);
    SplitText(s, start);
  }

  lemma SplitText(s: string, start: nat)
    requires start + 2 <= |s| && s[start] == '$' && s[start + 1] == '{' && SplitAt(s, start).Some?
    ensures var split := SplitAt(s, start).value;
            && s == split.prefix + ("${" + (split.expression + ("}" + split.rest)))
            && '}' !in split.expression
  {
    ClosedAfter(s[start + 2..], First(s[start + 2..], '}').value);
    OpenedAfter(s, start);
  }

  lemma OpenedAfter(s: string, start: nat)
    requires start + 2 <= |s| && s[start] == '$' && s[start + 1] == '{'
    ensures s == s[..start] + ("${" + s[start + 2..])
  {
    assert s[start..] == "${" + s[start + 2..];
  }

  lemma ClosedAfter(after: string, end: nat)
    requires end < |after| && after[end] == '}'
    ensures after == after[..end] + ("}" + after[end + 1..])
  {
  }

  /** Splitting a text and printing it back gives the text. */
  lemma {:induction false} PrintAfterParse(s: string)
    requires Parse(s).Some?
    ensures Print(Parse(s).value) == s && Proper(Parse(s).value)
    decreases |s|
  {
    match FindOpen(s)
    case None =>
    case Some(start) =>
      var split := SplitAt(s, start).value;
      var rest := Parse(split.rest).value;
      PrintAfterParse(split.rest);
      SplitRebuilds(s, start);
      PrintCons(Part(split.prefix, split.expression), rest);
  }

  lemma SliceAfter(x: string, y: string, z: string)
    ensures (x + (y + z))[..|x|] == x && (x + (y + z))[|x| + |y|..] == z
  {
  }

  lemma SplitsWhereBuilt(p: Part, rest: string)
    requires FindOpen(p.prefix).None? && '}' !in p.expression
    ensures var s := p.prefix + ("${" + (p.expression + ("}" + rest)));
            FindOpen(s) == Some(|p.prefix|) && SplitAt(s, |p.prefix|) == Some(Split(p.prefix, p.expression, rest))
  {
    var after := p.expression + ("}" + rest);
    var tail := "${" + after;
    FindOpenAfter(p.prefix, tail);
    FirstAfter(p.expression, '}', rest);
    SliceAfter(p.prefix, "${", after);
    SliceAfter(p.expression, "}", rest);
  }

  /** And a text splits into nothing else. */
  lemma {:induction false} ParseAfterPrint(t: Template)
    requires Proper(t)
    ensures Parse(Print(t)) == Some(t)
    decreases |t.parts|
  {
    if t.parts != [] {
      var p, rest := t.parts[0], Template(t.parts[1..], t.tail);
      ParseAfterPrint(rest);
      PrintCons(p, rest);
      assert t.parts == [p] + rest.parts;
      SplitsWhereBuilt(p, Print(rest));
    }
  }

  // ----- expressions -----

  function SplitEnv(expression: string): Option<(string, Option<string>)> {
    var parts := match First(expression, ':')
      case None => (expression, None)
      case Some(i) => (expression[..i], Some(expression[i + 1..]));
    if parts.0 == "" then None else Some(parts)
  }

  const LOCAL_ENV := "localEnv:"
  const CONTAINER_ENV := "containerEnv:"

  function OrElse(default: Option<string>): Result<string> {
    match default
    case None => Err
    case Some(v) => Ok(v)
  }

  /** `resolve_local_env`. */
  function ResolveLocal(expression: string, env: LocalEnv): Result<string> {
    match SplitEnv(expression)
    case None => Err
    case Some((name, default)) =>
      match env(name)
      case NotUnicode => Err
      case Unset => OrElse(default)
      case Set(v) => Ok(v)
  }

  /** `resolve_container_env`. */
  function ResolveContainer(expression: string, c: Context): Result<(string, string)> {
    match SplitEnv(expression)
    case None => Err
    case Some((name, default)) =>
      if name in c.containerEnv then Ok((name, c.containerEnv[name]))
      else match OrElse(default) case Err => Err case Ok(v) => Ok((name, v))
  }

  function ResolveName(expression: string, c: Context): Result<string> {
    if expression == "localWorkspaceFolder" then Ok(c.localWorkspaceFolder)
    else if expression == "localWorkspaceFolderBasename" then Ok(c.localWorkspaceFolderBasename)
    else if expression == "containerWorkspaceFolder" then Ok(c.containerWorkspaceFolder)
    else if expression == "containerWorkspaceFolderBasename" then Ok(c.containerWorkspaceFolderBasename)
    else if expression == "devcontainerId" then Ok(c.devcontainerId)
    else if expression == "uid" then Ok(Dec(c.uid))
    else if expression == "gid" then Ok(Dec(c.gid))
    else if expression == "remoteUser" then Ok(c.remoteUser)
    else if expression == "remoteUserHome" then OrElse(c.remoteUserHome)
    else Err
  }

  /** `resolve_expression`. */
  function Resolve(expression: string, c: Context, env: LocalEnv): Result<string> {
    match StripStart(expression, LOCAL_ENV)
    case Some(rest) => ResolveLocal(rest, env)
    case None =>
      match StripStart(expression, CONTAINER_ENV)
      case Some(rest) => (match ResolveContainer(rest, c) case Err => Err case Ok((_, v)) => Ok(v))
      case None => ResolveName(expression, c)
  }

  /** `resolve_local_env_tracked`: a value read from the environment is redacted, a default is not. */
  function ResolveLocalTracked(expression: string, env: LocalEnv): Result<Expanded> {
    match SplitEnv(expression)
    case None => Err
    case Some((name, default)) =>
      match env(name)
      case NotUnicode => Err
      case Unset => (match OrElse(default) case Err => Err case Ok(v) => Ok(Expanded(v, [])))
      case Set(v) => Ok(Expanded(v, [v]))
  }

  /** `resolve_container_env_tracked`: what is secret about a container variable stays secret. */
  function ResolveContainerTracked(expression: string, c: Context): Result<Expanded> {
    match ResolveContainer(expression, c)
    case Err => Err
    case Ok((name, v)) =>
      if name in c.sensitiveContainerEnv && c.sensitiveContainerEnv[name].value == v
      then Ok(Expanded(v, c.sensitiveContainerEnv[name].redactions))
      else Ok(Expanded(v, []))
  }

  /** `resolve_expression_tracked`. */
  function ResolveTracked(expression: string, c: Context, env: LocalEnv): Result<Expanded> {
    match StripStart(expression, LOCAL_ENV)
    case Some(rest) => ResolveLocalTracked(rest, env)
    case None =>
      match StripStart(expression, CONTAINER_ENV)
      case Some(rest) => ResolveContainerTracked(rest, c)
      case None => (match Resolve(expression, c, env) case Err => Err case Ok(v) => Ok(Expanded(v, [])))
  }

  // ----- expansion -----

  /** Every expression of the template replaced by what it resolves to; literals are copied. */
  function ExpandParts(parts: seq<Part>, tail: string, c: Context, env: LocalEnv): Result<Expanded> {
    if parts == [] then Ok(Expanded(tail, []))
    else
      match (ResolveTracked(parts[0].expression, c, env), ExpandParts(parts[1..], tail, c, env))
      case (Ok(x), Ok(rest)) => Ok(Expanded(parts[0].prefix + (x.value + rest.value), x.redactions + rest.redactions))
      case _ => Err
  }

  /** The meaning of `expand_variables_tracked_with`: the template is split once, then its parts are replaced. */
  function Expand(s: string, c: Context, env: LocalEnv): Result<Expanded> {
    match Parse(s)
    case None => Err
    case Some(t) => ExpandParts(t.parts, t.tail, c, env)
  }

  /** The meaning of `expand_variables_with`. */
  function ExpandPlainParts(parts: seq<Part>, tail: string, c: Context, env: LocalEnv): Result<string> {
    if parts == [] then Ok(tail)
    else
      match (Resolve(parts[0].expression, c, env), ExpandPlainParts(parts[1..], tail, c, env))
      case (Ok(x), Ok(rest)) => Ok(parts[0].prefix + (x + rest))
      case _ => Err
  }

  function ExpandPlain(s: string, c: Context, env: LocalEnv): Result<string> {
    match Parse(s)
    case None => Err
    case Some(t) => ExpandPlainParts(t.parts, t.tail, c, env)
  }

  lemma ResolversAgree(expression: string, c: Context, env: LocalEnv)
    ensures Resolve(expression, c, env)
            == match ResolveTracked(expression, c, env) case Err => Err case Ok(x) => Ok(x.value)
  {
  }

  lemma {:induction false} PartsAgree(parts: seq<Part>, tail: string, c: Context, env: LocalEnv)
    ensures ExpandPlainParts(parts, tail, c, env)
            == match ExpandParts(parts, tail, c, env) case Err => Err case Ok(x) => Ok(x.value)
  {
    if parts != [] {
      PartsAgree(parts[1..], tail, c, env);
      ResolversAgree(parts[0].expression, c, env);
    }
  }

  /** The plain and the tracked expander succeed together and give the same text. */
  lemma ExpandersAgree(s: string, c: Context, env: LocalEnv)
    ensures ExpandPlain(s, c, env) == match Expand(s, c, env) case Err => Err case Ok(x) => Ok(x.value)
  {
    if Parse(s).Some? {
      PartsAgree(Parse(s).value.parts, Parse(s).value.tail, c, env);
    }
  }

  // ----- compositionality -----

  /** `a + b` has an opening that is in neither half. */
  predicate Straddles(a: string, b: string) {
    a != [] && b != [] && a[|a| - 1] == '$' && b[0] == '{'
  }

  function Later(o: Option<nat>, n: nat): Option<nat> {
    match o
    case None => None
    case Some(i) => Some(n + i)
  }

  /** One more character in front. */
  lemma FindOpenCons(c: char, t: string)
    ensures FindOpen([c] + t) == if c == '$' && t != [] && t[0] == '{' then Some(0) else Later(FindOpen(t), 1)
  {
    assert ([c] + t)[1..] == t;
  }

  lemma {:induction false} FindOpenConcat(a: string, b: string)
    requires !Straddles(a, b)
    ensures FindOpen(a + b) == if FindOpen(a).Some? then FindOpen(a) else Later(FindOpen(b), |a|)
  {
    if a == [] {
      assert a + b == b;
    } else {
      var c, t := a[0], a[1..];
      assert a == [c] + t && a + b == [c] + (t + b);
      assert t != [] ==> t[|t| - 1] == a[|a| - 1] && (t + b)[0] == t[0];
      assert t == [] ==> t + b == b;
      FindOpenCons(c, t);
      FindOpenCons(c, t + b);
      FindOpenConcat(t, b);
    }
  }

  /** What is prepended to an expansion is copied. */
  function PrependText(x: Expanded, r: Result<Expanded>): Result<Expanded> {
    match r
    case Err => Err
    case Ok(y) => Ok(Expanded(x.value + y.value, x.redactions + y.redactions))
  }

  /** What the expansion loop finds in front of it. */
  datatype Head = Literal | Unclosed | Opens(split: Split)

  function HeadOf(s: string): (h: Head)
    ensures h.Opens? ==> |h.split.rest| < |s|
  {
    match FindOpen(s)
    case None => Literal
    case Some(start) =>
      match SplitAt(s, start)
      case None => Unclosed
      case Some(split) => Opens(split)
  }

  /** What one turn of the loop makes of the text `s` with head `h`. */
  function Turn(h: Head, s: string, c: Context, env: LocalEnv): Result<Expanded> {
    match h
    case Literal => Ok(Expanded(s, []))
    case Unclosed => Err
    case Opens(split) =>
      match ResolveTracked(split.expression, c, env)
      case Err => Err
      case Ok(x) => PrependText(Expanded(split.prefix + x.value, x.redactions), Expand(split.rest, c, env))
  }

  /** One turn of the expansion loop. */
  lemma ExpandTurn(s: string, c: Context, env: LocalEnv)
    ensures Expand(s, c, env) == Turn(HeadOf(s), s, c, env)
  {
    match HeadOf(s)
    case Literal =>
    case Unclosed =>
    case Opens(split) =>
      if Parse(split.rest).Some? {
        var t := Parse(s).value;
        assert t.parts[1..] == Parse(split.rest).value.parts;
        match (ResolveTracked(split.expression, c, env), Expand(split.rest, c, env))
        case (Ok(x), Ok(y)) => Assoc(split.prefix, x.value, y.value);
        case _ =>
      }
  }

  /** The first opening of `a`, if it is closed in `a`, is split off `a + b` in the same way. */
  lemma SplitConcat(a: string, b: string, start: nat)
    requires start + 2 <= |a| && SplitAt(a, start).Some?
    ensures var split := SplitAt(a, start).value;
            SplitAt(a + b, start) == Some(split.(rest := split.rest + b))
  {
    var after := a[start + 2..];
    var end := First(after, '}').value;
    assert (a + b)[start + 2..] == after + b && (a + b)[..start] == a[..start];
    FirstStays(after, b, '}');
    assert (after + b)[..end] == after[..end] && (after + b)[end + 1..] == after[end + 1..] + b;
  }

  lemma SplitBehind(a: string, b: string, j: nat)
    requires j + 2 <= |b|
    ensures SplitAt(a + b, |a| + j)
            == match SplitAt(b, j) case None => None case Some(split) => Some(split.(prefix := a + split.prefix))
  {
    assert (a + b)[|a| + j + 2..] == b[j + 2..];
    assert (a + b)[..|a| + j] == a + b[..j];
  }

  /** The head `h` with the literal `a` in front of it. */
  function Behind(a: string, h: Head): Head {
    match h
    case Opens(split) => Opens(split.(prefix := a + split.prefix))
    case _ => h
  }

  lemma HeadOfOpened(a: string, b: string)
    requires !Straddles(a, b) && HeadOf(a).Opens?
    ensures HeadOf(a + b) == Opens(HeadOf(a).split.(rest := HeadOf(a).split.rest + b))
  {
    FindOpenConcat(a, b);
    SplitConcat(a, b, FindOpen(a).value);
  }

  lemma HeadBehindLiteral(a: string, b: string)
    requires !Straddles(a, b) && HeadOf(a).Literal?
    ensures HeadOf(a + b) == Behind(a, HeadOf(b))
  {
    OpensBehindLiteral(a, b);
    match FindOpen(b)
    case None =>
    case Some(j) =>
      SplitBehind(a, b, j);
      HeadAt(b, j);
      HeadAt(a + b, |a| + j);
  }

  lemma OpensBehindLiteral(a: string, b: string)
    requires !Straddles(a, b) && HeadOf(a).Literal?
    ensures FindOpen(a + b) == match FindOpen(b) case None => None case Some(j) => Some(|a| + j)
  {
    FindOpenConcat(a, b);
  }

  lemma HeadAt(s: string, start: nat)
    requires FindOpen(s) == Some(start)
    ensures HeadOf(s) == match SplitAt(s, start) case None => Unclosed case Some(split) => Opens(split)
  {
  }

  lemma StraddlesRest(a: string, b: string)
    requires HeadOf(a).Opens? && !Straddles(a, b)
    ensures !Straddles(HeadOf(a).split.rest, b)
  {
    var rest := HeadOf(a).split.rest;
    assert rest != [] ==> rest[|rest| - 1] == a[|a| - 1];
  }

  /** Expansion works piece by piece: no inserted value and no later text changes what was expanded before. */
  lemma {:induction false} ExpandConcat(a: string, b: string, c: Context, env: LocalEnv)
    requires Expand(a, c, env).Ok? && !Straddles(a, b)
    ensures Expand(a + b, c, env) == PrependText(Expand(a, c, env).value, Expand(b, c, env))
    decreases |a|
  {
    ExpandTurn(a, c, env);
    ExpandTurn(a + b, c, env);
    match HeadOf(a)
    case Literal =>
      HeadBehindLiteral(a, b);
      ExpandTurn(b, c, env);
      TurnBehind(a, HeadOf(b), b, c, env);
    case Opens(split) =>
      HeadOfOpened(a, b);
      StraddlesRest(a, b);
      ExpandConcat(split.rest, b, c, env);
      var x := ResolveTracked(split.expression, c, env).value;
      var front := Expanded(split.prefix + x.value, x.redactions);
      PrependPrepend(front, Expand(split.rest, c, env).value, Expand(b, c, env));
  }

  /** A literal in front is copied. */
  lemma TurnBehind(a: string, h: Head, s: string, c: Context, env: LocalEnv)
    ensures Turn(Behind(a, h), a + s, c, env) == PrependText(Expanded(a, []), Turn(h, s, c, env))
  {
    match h
    case Literal => var none: seq<string> := []; assert none + none == none;
    case Unclosed =>
    case Opens(split) =>
      match ResolveTracked(split.expression, c, env)
      case Err =>
      case Ok(x) => PrependLiteral(a, split.prefix, x, Expand(split.rest, c, env));
  }

  lemma PrependPrepend(x: Expanded, y: Expanded, r: Result<Expanded>)
    ensures PrependText(x, PrependText(y, r))
            == PrependText(Expanded(x.value + y.value, x.redactions + y.redactions), r)
  {
    match r
    case Err =>
    case Ok(z) =>
      Assoc(x.value, y.value, z.value);
      assert (x.redactions + y.redactions) + z.redactions == x.redactions + (y.redactions + z.redactions);
  }

  lemma PrependLiteral(a: string, prefix: string, x: Expanded, r: Result<Expanded>)
    ensures PrependText(Expanded((a + prefix) + x.value, x.redactions), r)
            == PrependText(Expanded(a, []), PrependText(Expanded(prefix + x.value, x.redactions), r))
  {
    Assoc(a, prefix, x.value);
    assert [] + x.redactions == x.redactions;
    PrependPrepend(Expanded(a, []), Expanded(prefix + x.value, x.redactions), r);
  }
}
