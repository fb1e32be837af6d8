/**
 src/config/variables.rs: the expansion loops, environment maps, and what tracking guarantees.
 */
module EnvTracking {
  import opened Text
  import opened Variables

  datatype ExpandedMap = ExpandedMap(values: map<string, string>, sensitive: map<string, Sensitive>)

  /** A sensitive value is itself redacted, once. */
  function SensitiveOf(x: Expanded): Sensitive {
    Sensitive(x.value, if x.value in x.redactions then x.redactions else x.redactions + [x.value])
  }

  predicate AllExpand(values: map<string, string>, c: Context, env: LocalEnv) {
    forall k :: k in values ==> Expand(values[k], c, env).Ok?
  }

  function Expansions(values: map<string, string>, c: Context, env: LocalEnv): map<string, Expanded>
    requires AllExpand(values, c, env)
  {
    map k | k in values :: Expand(values[k], c, env).value
  }

  function ValuesOf(results: map<string, Expanded>): map<string, string> {
    map k | k in results :: results[k].value
  }

  function SensitiveAmong(results: map<string, Expanded>): map<string, Sensitive> {
    map k | k in results && results[k].redactions != [] :: SensitiveOf(results[k])
  }

  /** `expand_env_map_tracked_with`: a key is sensitive when its value holds anything to redact. */
  function ExpandMap(values: map<string, string>, c: Context, env: LocalEnv): Result<ExpandedMap> {
    if AllExpand(values, c, env) then
      var results := Expansions(values, c, env);
      Ok(ExpandedMap(ValuesOf(results), SensitiveAmong(results)))
    else Err
  }

  function Expressions(parts: seq<Part>): seq<string> {
    seq(|parts|, i requires 0 <= i < |parts| => parts[i].expression)
  }

  /** `variable_expressions`. */
  function VariableExpressions(s: string): Result<seq<string>> {
    match Parse(s)
    case None => Err
    case Some(t) => Ok(Expressions(t.parts))
  }

  predicate ReadsContainerEnv(expression: string) {
    StripStart(expression, CONTAINER_ENV).Some?
  }

  /** The text is closed and no expression in it refers to `containerEnv`. */
  predicate Independent(s: string) {
    && Parse(s).Some?
    && forall i :: 0 <= i < |Parse(s).value.parts| ==> !ReadsContainerEnv(Parse(s).value.parts[i].expression)
  }

  predicate Acyclic(values: map<string, string>) {
    forall k :: k in values ==> Independent(values[k])
  }

  /** `expand_container_env_tracked`. */
  function ExpandContainerEnv(values: map<string, string>, c: Context, env: LocalEnv): Result<ExpandedMap> {
    if Acyclic(values) then ExpandMap(values, c, env) else Err
  }

  // ----- what tracking guarantees -----

  ghost predicate SameUnset(e: LocalEnv, f: LocalEnv) {
    forall name :: e(name).Unset? <==> f(name).Unset?
  }

  /** `v` is marked as what the sensitive container variable `name` holds. */
  predicate Marks(c: Context, name: string, v: string) {
    && name in c.sensitiveContainerEnv && c.sensitiveContainerEnv[name].value == v
    && c.sensitiveContainerEnv[name].redactions != []
  }

  /** The same variables, and what is not marked in `c` has the same value, and is not marked, in `d`. */
  ghost predicate SameUnmarked(c: Context, d: Context) {
    && SameButContainerEnv(c, d) && c.containerEnv.Keys == d.containerEnv.Keys
    && (forall name :: name in c.containerEnv && !Marks(c, name, c.containerEnv[name]) ==>
                         d.containerEnv[name] == c.containerEnv[name] && !Marks(d, name, c.containerEnv[name]))
    && (forall name, v :: name !in c.containerEnv && Marks(d, name, v) ==> Marks(c, name, v))
  }

  /** The local name an expression reads, if it reads one. */
  function LocalName(expression: string): Option<string> {
    match StripStart(expression, LOCAL_ENV)
    case None => None
    case Some(rest) => (match SplitEnv(rest) case None => None case Some((name, _)) => Some(name))
  }

  /** Every local name the expressions read is unset. */
  ghost predicate ReadsUnset(parts: seq<Part>, env: LocalEnv) {
    forall i :: 0 <= i < |parts| && LocalName(parts[i].expression).Some? ==>
      env(LocalName(parts[i].expression).value).Unset?
  }

  ghost predicate ReadsLocal(s: string, name: string) {
    && Parse(s).Some?
    && exists i :: 0 <= i < |Parse(s).value.parts| && LocalName(Parse(s).value.parts[i].expression) == Some(name)
  }

  /** What is expanded without anything to redact has read unset names only. */
  lemma {:induction false} UntrackedReadsUnset(parts: seq<Part>, tail: string, c: Context, env: LocalEnv)
    requires ExpandParts(parts, tail, c, env).Ok? && ExpandParts(parts, tail, c, env).value.redactions == []
    ensures ReadsUnset(parts, env)
  {
    if parts != [] {
      var x, rest := ResolveTracked(parts[0].expression, c, env).value, ExpandParts(parts[1..], tail, c, env).value;
      assert |x.redactions + rest.redactions| == |x.redactions| + |rest.redactions|;
      UntrackedReadsUnset(parts[1..], tail, c, env);
      assert forall i :: 0 < i < |parts| ==> parts[i] == parts[1..][i - 1];
    }
  }

  lemma UntrackedContainer(expression: string, c: Context, d: Context)
    requires SameUnmarked(c, d)
    requires ResolveContainerTracked(expression, c).Ok? && ResolveContainerTracked(expression, c).value.redactions == []
    ensures ResolveContainerTracked(expression, d) == ResolveContainerTracked(expression, c)
  {
    var (name, v) := ResolveContainer(expression, c).value;
    assert name in c.containerEnv <==> name in d.containerEnv;
    assert !Marks(c, name, v);
    assert ResolveContainer(expression, d) == ResolveContainer(expression, c);
  }

  lemma UntrackedExpression(expression: string, c: Context, d: Context, e: LocalEnv, f: LocalEnv)
    requires SameUnmarked(c, d)
    requires LocalName(expression).Some? ==> f(LocalName(expression).value).Unset?
    requires ResolveTracked(expression, c, e).Ok? && ResolveTracked(expression, c, e).value.redactions == []
    ensures ResolveTracked(expression, d, f) == ResolveTracked(expression, c, e)
  {
    match StripStart(expression, LOCAL_ENV)
    case Some(rest) => assert ResolveLocalTracked(rest, f) == ResolveLocalTracked(rest, e);
    case None =>
      match StripStart(expression, CONTAINER_ENV)
      case Some(rest) => UntrackedContainer(rest, c, d);
      case None => assert ResolveName(expression, c) == ResolveName(expression, d);
  }

  lemma {:induction false} UntrackedParts(parts: seq<Part>, tail: string, c: Context, d: Context, e: LocalEnv,
                                          f: LocalEnv)
    requires SameUnmarked(c, d) && ReadsUnset(parts, f)
    requires ExpandParts(parts, tail, c, e).Ok? && ExpandParts(parts, tail, c, e).value.redactions == []
    ensures ExpandParts(parts, tail, d, f) == ExpandParts(parts, tail, c, e)
  {
    if parts != [] {
      var x, rest := ResolveTracked(parts[0].expression, c, e).value, ExpandParts(parts[1..], tail, c, e).value;
      assert |x.redactions + rest.redactions| == |x.redactions| + |rest.redactions|;
      assert forall i :: 0 <= i < |parts[1..]| ==> parts[1..][i] == parts[i + 1];
      UntrackedExpression(parts[0].expression, c, d, e, f);
      UntrackedParts(parts[1..], tail, c, d, e, f);
    }
  }

  /** In two contexts that agree on what is not marked, and two environments, a text without redactions is the
      same exactly when every local name it reads is unset in the second environment too. */
  lemma UntrackedTextExactly(s: string, c: Context, d: Context, e: LocalEnv, f: LocalEnv)
    requires SameUnmarked(c, d)
    requires Expand(s, c, e).Ok? && Expand(s, c, e).value.redactions == []
    ensures Expand(s, d, f) == Expand(s, c, e) <==> forall name :: ReadsLocal(s, name) ==> f(name).Unset?
  {
    var t := Parse(s).value;
    if Expand(s, d, f) == Expand(s, c, e) { UntrackedReadsUnset(t.parts, t.tail, d, f); }
    if forall name :: ReadsLocal(s, name) ==> f(name).Unset? {
      forall i | 0 <= i < |t.parts| && LocalName(t.parts[i].expression).Some?
        ensures f(LocalName(t.parts[i].expression).value).Unset?
      {
        assert ReadsLocal(s, LocalName(t.parts[i].expression).value);
      }
      UntrackedParts(t.parts, t.tail, c, d, e, f);
    }
  }

  lemma UntrackedText(s: string, c: Context, d: Context, e: LocalEnv, f: LocalEnv)
    requires SameUnset(e, f) && SameUnmarked(c, d)
    requires Expand(s, c, e).Ok? && Expand(s, c, e).value.redactions == []
    ensures Expand(s, d, f) == Expand(s, c, e)
  {
    var t := Parse(s).value;
    UntrackedReadsUnset(t.parts, t.tail, c, e);
    UntrackedTextExactly(s, c, d, e, f);
  }

  /**
   When an unmarked key stays what it is: exactly in the environments in which every local name its template reads
   is unset.
   */
  lemma UnmarkedKeysExactly(values: map<string, string>, c: Context, e: LocalEnv, f: LocalEnv, k: string)
    requires ExpandMap(values, c, e).Ok? && k in values && k !in ExpandMap(values, c, e).value.sensitive
    ensures Expand(values[k], c, f) == Ok(Expanded(ExpandMap(values, c, e).value.values[k], []))
            <==> forall name :: ReadsLocal(values[k], name) ==> f(name).Unset?
  {
    assert Expand(values[k], c, e).Ok?;
    UntrackedTextExactly(values[k], c, c, e, f);
  }

  /**
   Tracking is complete: a key that is not marked sensitive has the same value, and is again not sensitive,
   under any other local environment in which the same names are unset.
   */
  lemma UnmarkedKeysDoNotDependOnTheEnvironment(values: map<string, string>, c: Context, e: LocalEnv, f: LocalEnv,
                                                k: string)
    requires SameUnset(e, f) && ExpandMap(values, c, e).Ok?
    requires k in values && k !in ExpandMap(values, c, e).value.sensitive
    ensures Expand(values[k], c, f) == Ok(Expanded(ExpandMap(values, c, e).value.values[k], []))
    ensures ExpandMap(values, c, f).Ok? ==>
              && ExpandMap(values, c, f).value.values[k] == ExpandMap(values, c, e).value.values[k]
              && k !in ExpandMap(values, c, f).value.sensitive
  {
    assert Expand(values[k], c, e).Ok?;
    UntrackedText(values[k], c, c, e, f);
  }

  /** `with_container_env`: the container has the variables of its image and, over them, the expanded ones. */
  function WithContainerEnv(c: Context, image: map<string, string>, x: ExpandedMap): Context {
    c.(containerEnv := image + x.values, sensitiveContainerEnv := x.sensitive)
  }

  /** What is sensitive is recorded with its own value and something to redact. */
  ghost predicate WellMarked(x: ExpandedMap) {
    forall k :: k in x.sensitive ==>
      k in x.values && x.sensitive[k].value == x.values[k] && x.sensitive[k].redactions != []
  }

  lemma ExpandMapMarksWell(values: map<string, string>, c: Context, env: LocalEnv)
    requires ExpandMap(values, c, env).Ok?
    ensures WellMarked(ExpandMap(values, c, env).value)
    ensures ExpandMap(values, c, env).value.values.Keys == values.Keys
  {
    var results := Expansions(values, c, env);
    forall x: Expanded
      ensures SensitiveOf(x).value == x.value && (x.redactions != [] ==> SensitiveOf(x).redactions != [])
    {
    }
    assert ValuesOf(results).Keys == results.Keys == values.Keys;
  }

  lemma SameUnmarkedVariables(c: Context, image: map<string, string>, x: ExpandedMap, y: ExpandedMap)
    requires WellMarked(x) && WellMarked(y) && x.values.Keys == y.values.Keys
    requires forall k :: k in x.values && k !in x.sensitive ==> y.values[k] == x.values[k] && k !in y.sensitive
    ensures SameUnmarked(WithContainerEnv(c, image, x), WithContainerEnv(c, image, y))
  {
  }

  /** What the first stage leaves unmarked is the same for both local environments. */
  lemma FirstStage(container: map<string, string>, image: map<string, string>, c: Context, e: LocalEnv, f: LocalEnv)
    requires SameUnset(e, f)
    requires ExpandContainerEnv(container, c, e).Ok? && ExpandContainerEnv(container, c, f).Ok?
    ensures SameUnmarked(WithContainerEnv(c, image, ExpandContainerEnv(container, c, e).value),
                         WithContainerEnv(c, image, ExpandContainerEnv(container, c, f).value))
  {
    var x, y := ExpandContainerEnv(container, c, e).value, ExpandContainerEnv(container, c, f).value;
    ExpandMapMarksWell(container, c, e);
    ExpandMapMarksWell(container, c, f);
    forall k | k in x.values && k !in x.sensitive ensures y.values[k] == x.values[k] && k !in y.sensitive {
      UnmarkedKeysDoNotDependOnTheEnvironment(container, c, e, f, k);
    }
    SameUnmarkedVariables(c, image, x, y);
  }

  /**
   Tracking is complete across both stages: the expanded container environment, with what is sensitive in it,
   feeds the expansion of the remote environment, and a remote key that ends up unmarked has the same value, and
   is unmarked, under any other local environment in which the same names are unset.
   */
  lemma UnmarkedRemoteKeysDoNotDependOnTheEnvironment(
    container: map<string, string>, image: map<string, string>, remote: map<string, string>,
    c: Context, e: LocalEnv, f: LocalEnv, k: string)
    requires SameUnset(e, f)
    requires ExpandContainerEnv(container, c, e).Ok? && ExpandContainerEnv(container, c, f).Ok?
    requires var inE := WithContainerEnv(c, image, ExpandContainerEnv(container, c, e).value);
             ExpandMap(remote, inE, e).Ok? && k in remote && k !in ExpandMap(remote, inE, e).value.sensitive
    ensures var inE := WithContainerEnv(c, image, ExpandContainerEnv(container, c, e).value);
            var inF := WithContainerEnv(c, image, ExpandContainerEnv(container, c, f).value);
            && Expand(remote[k], inF, f) == Ok(Expanded(ExpandMap(remote, inE, e).value.values[k], []))
            && (ExpandMap(remote, inF, f).Ok? ==>
                  && ExpandMap(remote, inF, f).value.values[k] == ExpandMap(remote, inE, e).value.values[k]
                  && k !in ExpandMap(remote, inF, f).value.sensitive)
  {
    FirstStage(container, image, c, e, f);
    var inE := WithContainerEnv(c, image, ExpandContainerEnv(container, c, e).value);
    assert Expand(remote[k], inE, e).Ok?;
    UntrackedText(remote[k], inE, WithContainerEnv(c, image, ExpandContainerEnv(container, c, f).value), e, f);
  }

  /**
   Why the unset names must agree: a default stands in exactly while the name is unset, and is then not
   tracked. The default may itself contain colons.
   */
  lemma DefaultStandsInForUnset(name: string, default: string, c: Context, env: LocalEnv)
    requires name != "" && ':' !in name
    ensures ResolveTracked(LOCAL_ENV + (name + ([':'] + default)), c, env)
            == match env(name)
               case NotUnicode => Err
               case Unset => Ok(Expanded(default, []))
               case Set(v) => Ok(Expanded(v, [v]))
  {
    StripFront(LOCAL_ENV, name + ([':'] + default));
    SplitEnvDefault(name, default);
  }

  lemma StripFront(p: string, rest: string)
    ensures StripStart(p + rest, p) == Some(rest)
  {
    SliceAfter(p, "", rest);
    assert "" + rest == rest;
  }

  lemma SplitEnvDefault(name: string, default: string)
    requires name != "" && ':' !in name
    ensures SplitEnv(name + ([':'] + default)) == Some((name, Some(default)))
  {
    FirstAfter(name, ':', default);
    SliceAfter(name, [':'], default);
  }

  /** Two contexts that differ at most in the container environment. */
  predicate SameButContainerEnv(c: Context, d: Context) {
    c == d.(containerEnv := c.containerEnv, sensitiveContainerEnv := c.sensitiveContainerEnv)
  }

  lemma ExpressionIgnoresContainerEnv(expression: string, c: Context, d: Context, env: LocalEnv)
    requires SameButContainerEnv(c, d) && !ReadsContainerEnv(expression)
    ensures ResolveTracked(expression, c, env) == ResolveTracked(expression, d, env)
  {
    assert ResolveName(expression, c) == ResolveName(expression, d);
  }

  lemma {:induction false} PartsIgnoreContainerEnv(parts: seq<Part>, tail: string, c: Context, d: Context,
                                                   env: LocalEnv)
    requires SameButContainerEnv(c, d)
    requires forall i :: 0 <= i < |parts| ==> !ReadsContainerEnv(parts[i].expression)
    ensures ExpandParts(parts, tail, c, env) == ExpandParts(parts, tail, d, env)
  {
    if parts != [] {
      ExpressionIgnoresContainerEnv(parts[0].expression, c, d, env);
      assert forall i :: 0 <= i < |parts[1..]| ==> parts[1..][i] == parts[1 + i];
      PartsIgnoreContainerEnv(parts[1..], tail, c, d, env);
    }
  }

  /** Because references to it are rejected first, `containerEnv` never depends on a container environment. */
  lemma ContainerEnvIsNotCircular(values: map<string, string>, c: Context, d: Context, env: LocalEnv)
    requires SameButContainerEnv(c, d)
    ensures ExpandContainerEnv(values, c, env) == ExpandContainerEnv(values, d, env)
  {
    if Acyclic(values) {
      forall k | k in values ensures Expand(values[k], c, env) == Expand(values[k], d, env) {
        var t := Parse(values[k]).value;
        PartsIgnoreContainerEnv(t.parts, t.tail, c, d, env);
      }
      SameExpansions(values, c, d, env);
    }
  }

  lemma SameExpansions(values: map<string, string>, c: Context, d: Context, env: LocalEnv)
    requires forall k :: k in values ==> Expand(values[k], c, env) == Expand(values[k], d, env)
    ensures ExpandMap(values, c, env) == ExpandMap(values, d, env)
  {
    assert AllExpand(values, c, env) <==> AllExpand(values, d, env);
    assert AllExpand(values, c, env) ==> Expansions(values, c, env) == Expansions(values, d, env);
  }

  // ----- the loops -----

  /** `expand_variables_tracked_with`. */
  method ExpandVariablesTracked(input: string, c: Context, env: LocalEnv) returns (r: Result<Expanded>)
    ensures r == Expand(input, c, env)
  {
    var output, redactions: seq<string>, rest := "", [], input;
    PrependNothing(Expand(input, c, env));
    while FindOpen(rest).Some?
      invariant Expand(input, c, env) == PrependText(Expanded(output, redactions), Expand(rest, c, env))
      decreases |rest|
    {
      ExpandTurn(rest, c, env);
      match SplitAt(rest, FindOpen(rest).value) {
        case None => return Err;
        case Some(split) =>
          match ResolveTracked(split.expression, c, env) {
            case Err => return Err;
            case Ok(x) =>
              PrependPrepend(Expanded(output, redactions), Expanded(split.prefix + x.value, x.redactions),
                             Expand(split.rest, c, env));
              Assoc(output, split.prefix, x.value);
              output := output + split.prefix + x.value;
              redactions := redactions + x.redactions;
              rest := split.rest;
          }
      }
    }
    assert Expand(rest, c, env) == Ok(Expanded(rest, []));
    assert redactions + [] == redactions;
    r := Ok(Expanded(output + rest, redactions));
  }

  lemma PrependNothing(r: Result<Expanded>)
    ensures PrependText(Expanded("", []), r) == r
  {
    if r.Ok? {
      assert "" + r.value.value == r.value.value && [] + r.value.redactions == r.value.redactions;
    }
  }

  /** What has been written so far, before the plain expansion of the rest. */
  function PrependPlain(output: string, r: Result<string>): Result<string> {
    match r
    case Err => Err
    case Ok(y) => Ok(output + y)
  }

  lemma PlainTurn(s: string, output: string, c: Context, env: LocalEnv)
    requires FindOpen(s).Some?
    ensures match SplitAt(s, FindOpen(s).value)
            case None => ExpandPlain(s, c, env) == Err
            case Some(split) =>
              match Resolve(split.expression, c, env)
              case Err => ExpandPlain(s, c, env) == Err
              case Ok(x) =>
                PrependPlain(output, ExpandPlain(s, c, env))
                == PrependPlain(output + split.prefix + x, ExpandPlain(split.rest, c, env))
  {
    ExpandTurn(s, c, env);
    ExpandersAgree(s, c, env);
    if SplitAt(s, FindOpen(s).value).Some? {
      var split := SplitAt(s, FindOpen(s).value).value;
      ExpandersAgree(split.rest, c, env);
      ResolversAgree(split.expression, c, env);
      if Resolve(split.expression, c, env).Ok? && Expand(split.rest, c, env).Ok? {
        var x, y := Resolve(split.expression, c, env).value, Expand(split.rest, c, env).value.value;
        Assoc(output, split.prefix, x);
        Assoc(output, split.prefix + x, y);
      }
    }
  }

  /** `expand_variables_with`. */
  method ExpandVariables(input: string, c: Context, env: LocalEnv) returns (r: Result<string>)
    ensures r == ExpandPlain(input, c, env)
  {
    var output, rest := "", input;
    assert ExpandPlain(input, c, env).Ok? ==>
             "" + ExpandPlain(input, c, env).value == ExpandPlain(input, c, env).value;
    while FindOpen(rest).Some?
      invariant ExpandPlain(input, c, env) == PrependPlain(output, ExpandPlain(rest, c, env))
      decreases |rest|
    {
      PlainTurn(rest, output, c, env);
      match SplitAt(rest, FindOpen(rest).value) {
        case None => return Err;
        case Some(split) =>
          match Resolve(split.expression, c, env) {
            case Err => return Err;
            case Ok(x) =>
              output := output + split.prefix + x;
              rest := split.rest;
          }
      }
    }
    r := Ok(output + rest);
  }

  function PrependExpressions(found: seq<string>, r: Result<seq<string>>): Result<seq<string>> {
    match r
    case Err => Err
    case Ok(more) => Ok(found + more)
  }

  lemma ExpressionsTurn(s: string, found: seq<string>)
    requires FindOpen(s).Some?
    ensures match SplitAt(s, FindOpen(s).value)
            case None => VariableExpressions(s) == Err
            case Some(split) =>
              PrependExpressions(found, VariableExpressions(s))
              == PrependExpressions(found + [split.expression], VariableExpressions(split.rest))
  {
    match SplitAt(s, FindOpen(s).value)
    case None =>
    case Some(split) =>
      match Parse(split.rest)
      case None =>
      case Some(t) => ExpressionsCons(found, Part(split.prefix, split.expression), t.parts);
  }

  lemma ExpressionsCons(found: seq<string>, p: Part, parts: seq<Part>)
    ensures found + Expressions([p] + parts) == (found + [p.expression]) + Expressions(parts)
  {
    assert Expressions([p] + parts) == [p.expression] + Expressions(parts);
  }

  /** `variable_expressions`. */
  method ListVariableExpressions(input: string) returns (r: Result<seq<string>>)
    ensures r == VariableExpressions(input)
  {
    var expressions, rest := [], input;
    assert VariableExpressions(input).Ok? ==>
           expressions + VariableExpressions(input).value == VariableExpressions(input).value;
    while FindOpen(rest).Some?
      invariant VariableExpressions(input) == PrependExpressions(expressions, VariableExpressions(rest))
      decreases |rest|
    {
      ExpressionsTurn(rest, expressions);
      match SplitAt(rest, FindOpen(rest).value) {
        case None => return Err;
        case Some(split) =>
          expressions := expressions + [split.expression];
          rest := split.rest;
      }
    }
    assert VariableExpressions(rest) == Ok([]) && expressions + [] == expressions;
    r := Ok(expressions);
  }

  /** One more key done. */
  lemma OneMoreResult(done: map<string, Expanded>, k: string, x: Expanded)
    requires k !in done
    ensures ValuesOf(done[k := x]) == ValuesOf(done)[k := x.value]
    ensures SensitiveAmong(done[k := x])
            == if x.redactions == [] then SensitiveAmong(done) else SensitiveAmong(done)[k := SensitiveOf(x)]
  {
  }

  /** The redactions of one value, with the value itself among them. */
  method MarkSensitive(x: Expanded) returns (r: Sensitive)
    ensures r == SensitiveOf(x)
  {
    var redactions := x.redactions;
    if x.value !in redactions {
      redactions := redactions + [x.value];
    }
    r := Sensitive(x.value, redactions);
  }

  /** `expand_env_map_tracked_with`, in whatever order the map yields its keys. */
  method ExpandEnvMapTracked(values: map<string, string>, c: Context, env: LocalEnv) returns (r: Result<ExpandedMap>)
    ensures r == ExpandMap(values, c, env)
  {
    var expanded: map<string, string>, sensitive: map<string, Sensitive> := map[], map[];
    var left := values.Keys;
    ghost var done: map<string, Expanded> := map[];
    while left != {}
      invariant left <= values.Keys && done.Keys == values.Keys - left
      invariant forall k :: k in done ==> Expand(values[k], c, env) == Ok(done[k])
      invariant expanded == ValuesOf(done) && sensitive == SensitiveAmong(done)
    {
      var k :| k in left;
      var value := ExpandVariablesTracked(values[k], c, env);
      match value {
        case Err => return Err;
        case Ok(x) =>
          OneMoreResult(done, k, x);
          if x.redactions != [] {
            var marked := MarkSensitive(x);
            sensitive := sensitive[k := marked];
          }
          expanded := expanded[k := x.value];
          done, left := done[k := x], left - {k};
      }
    }
    AllDone(values, done, c, env);
    r := Ok(ExpandedMap(expanded, sensitive));
  }

  lemma AllDone(values: map<string, string>, done: map<string, Expanded>, c: Context, env: LocalEnv)
    requires done.Keys == values.Keys && forall k :: k in done ==> Expand(values[k], c, env) == Ok(done[k])
    ensures AllExpand(values, c, env) && Expansions(values, c, env) == done
  {
    forall k | k in values ensures Expand(values[k], c, env).Ok? { assert k in done; }
  }

  lemma IndependentWhenListed(s: string, found: seq<string>)
    requires VariableExpressions(s) == Ok(found)
    ensures Independent(s) <==> forall i :: 0 <= i < |found| ==> !ReadsContainerEnv(found[i])
  {
    var parts := Parse(s).value.parts;
    assert |found| == |parts| && forall i :: 0 <= i < |found| ==> found[i] == parts[i].expression;
  }

  /** `reject_container_env_references`. */
  method RejectContainerEnvReferences(values: map<string, string>) returns (accepted: bool)
    ensures accepted <==> Acyclic(values)
  {
    var left := values.Keys;
    while left != {}
      invariant left <= values.Keys
      invariant forall k :: k in values && k !in left ==> Independent(values[k])
    {
      var k :| k in left;
      var expressions := ListVariableExpressions(values[k]);
      match expressions {
        case Err => return false;
        case Ok(found) =>
          IndependentWhenListed(values[k], found);
          for i := 0 to |found|
            invariant forall j :: 0 <= j < i ==> !ReadsContainerEnv(found[j])
          {
            if ReadsContainerEnv(found[i]) {
              return false;
            }
          }
          left := left - {k};
      }
    }
    accepted := true;
  }

  /** `expand_container_env_tracked`: the check comes first. */
  method ExpandContainerEnvTracked(values: map<string, string>, c: Context, env: LocalEnv)
    returns (r: Result<ExpandedMap>)
    ensures r == ExpandContainerEnv(values, c, env)
  {
    var accepted := RejectContainerEnvReferences(values);
    if !accepted {
      return Err;
    }
    r := ExpandEnvMapTracked(values, c, env);
  }
}
