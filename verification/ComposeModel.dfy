/**
 src/config/hash.rs, the Compose model: environment values are replaced by digest markers before the
 model is hashed. SHA-256 is the parameter `sha`.
 */
module ComposeModel {
  import opened Text
  import opened Canonical

  const VERSION := "decune-compose-env-value-hash-v1"

  ghost predicate Injective(f: string -> string) {
    forall a, b :: f(a) == f(b) ==> a == b
  }

  /** The assumption can be met. */
  lemma InjectiveIsPossible()
    ensures Injective((s: string) => s)
  {
  }

  predicate IsLeaf(v: Json) {
    !v.List? && !v.Record?
  }

  function TypeName(v: Json): string {
    match v
    case Null => "null"
    case Flag(_) => "boolean"
    case Number(_) => "number"
    case Text(_) => "string"
    case List(_) => "array"
    case Record(_) => "object"
  }

  function DigestFields(path: seq<string>, v: Json): seq<Field> {
    [ Field("version", Str(VERSION)),
      Field("json_path", Seq(seq(|path|, i requires 0 <= i < |path| => Str(path[i])))),
      Field("json_value_type", Str(TypeName(v))),
      Field("canonical_json_value", JsonDoc(v)) ]
  }

  function LeafMarker(sha: string -> string, path: seq<string>, v: Json): Json {
    Json.Text(VERSION + (":sha256:" + sha(EncFields(DigestFields(path, v)))))
  }

  function KeySegment(k: string): string {
    "key:" + k
  }

  function IndexSegment(i: nat): string {
    "index:" + Dec(i)
  }

  predicate IsEnvironmentPath(path: seq<string>) {
    |path| == 3 && path[0] == "key:services" && path[2] == "key:environment"
  }

  /** `digest_json_leaf_values`: every leaf at or below `v`, which sits at `path`, becomes a marker. */
  function Digest(sha: string -> string, v: Json, path: seq<string>): Json {
    match v
    case Record(members) => Record(map k | k in members :: Digest(sha, members[k], path + [KeySegment(k)]))
    case List(elements) =>
      List(seq(|elements|, i requires 0 <= i < |elements| => Digest(sha, elements[i], path + [IndexSegment(i)])))
    case _ => LeafMarker(sha, path, v)
  }

  /** `sanitize_compose_canonical_model_value` on the value `v` that sits at `path`. */
  function Sanitize(sha: string -> string, v: Json, path: seq<string>): Json {
    match v
    case Record(members) =>
      if IsEnvironmentPath(path) then Digest(sha, v, path)
      else Record(map k | k in members :: Sanitize(sha, members[k], path + [KeySegment(k)]))
    case List(elements) =>
      List(seq(|elements|, i requires 0 <= i < |elements| => Sanitize(sha, elements[i], path + [IndexSegment(i)])))
    case _ => v
  }

  // ----- injectivity -----

  lemma MarkerInjective(sha: string -> string, p: seq<string>, a: Json, q: seq<string>, b: Json)
    requires Injective(sha)
    requires LeafMarker(sha, p, a) == LeafMarker(sha, q, b)
    ensures p == q && a == b
  {
    var x, y := EncFields(DigestFields(p, a)), EncFields(DigestFields(q, b));
    StripPrefix(VERSION, ":sha256:" + sha(x), ":sha256:" + sha(y));
    StripPrefix(":sha256:", sha(x), sha(y));
    assert x + "" == x && y + "" == y;
    FieldsUnique(DigestFields(p, a), DigestFields(q, b), "", "");
    assert DigestFields(p, a)[3] == DigestFields(q, b)[3];
    JsonDocInjective(a, b);
    var dp, dq := DigestFields(p, a)[1].value.items, DigestFields(q, b)[1].value.items;
    forall i | 0 <= i < |p| ensures p[i] == q[i] {
      assert dp[i] == dq[i];
    }
  }

  lemma {:induction false} DigestInjective(sha: string -> string, a: Json, b: Json, path: seq<string>)
    requires Injective(sha)
    requires Digest(sha, a, path) == Digest(sha, b, path)
    ensures a == b
    decreases a
  {
    if a.Record? {
      var da, db := Digest(sha, a, path).members, Digest(sha, b, path).members;
      assert a.members.Keys == da.Keys == db.Keys == b.members.Keys;
      forall k | k in a.members ensures a.members[k] == b.members[k] {
        assert da[k] == db[k];
        DigestInjective(sha, a.members[k], b.members[k], path + [KeySegment(k)]);
      }
    } else if a.List? {
      var da, db := Digest(sha, a, path).elements, Digest(sha, b, path).elements;
      forall i | 0 <= i < |a.elements| ensures a.elements[i] == b.elements[i] {
        assert da[i] == db[i];
        DigestInjective(sha, a.elements[i], b.elements[i], path + [IndexSegment(i)]);
      }
    } else {
      MarkerInjective(sha, path, a, path, b);
    }
  }

  /** Two Compose models with the same sanitised form are the same model. */
  lemma {:induction false} SanitizeInjective(sha: string -> string, a: Json, b: Json, path: seq<string>)
    requires Injective(sha)
    requires Sanitize(sha, a, path) == Sanitize(sha, b, path)
    ensures a == b
    decreases a
  {
    if a.Record? && IsEnvironmentPath(path) {
      DigestInjective(sha, a, b, path);
    } else if a.Record? {
      var da, db := Sanitize(sha, a, path).members, Sanitize(sha, b, path).members;
      assert a.members.Keys == da.Keys == db.Keys == b.members.Keys;
      forall k | k in a.members ensures a.members[k] == b.members[k] {
        assert da[k] == db[k];
        SanitizeInjective(sha, a.members[k], b.members[k], path + [KeySegment(k)]);
      }
    } else if a.List? {
      var da, db := Sanitize(sha, a, path).elements, Sanitize(sha, b, path).elements;
      forall i | 0 <= i < |a.elements| ensures a.elements[i] == b.elements[i] {
        assert da[i] == db[i];
        SanitizeInjective(sha, a.elements[i], b.elements[i], path + [IndexSegment(i)]);
      }
    }
  }

  // ----- what changes, and where -----

  datatype Step = Key(key: string) | Index(index: nat)

  /** The value at an address below `v`, if there is one. */
  function Lookup(v: Json, at: seq<Step>): Option<Json> {
    if at == [] then Some(v)
    else
      match Child(v, at[0])
      case None => None
      case Some(child) => Lookup(child, at[1..])
  }

  function Child(v: Json, step: Step): Option<Json> {
    match step
    case Key(k) => if v.Record? && k in v.members then Some(v.members[k]) else None
    case Index(i) => if v.List? && i < |v.elements| then Some(v.elements[i]) else None
  }

  function Segment(step: Step): string {
    match step
    case Key(k) => KeySegment(k)
    case Index(i) => IndexSegment(i)
  }

  function PathOf(at: seq<Step>): seq<string> {
    seq(|at|, i requires 0 <= i < |at| => Segment(at[i]))
  }

  /** The address lies at or below an object at `services/<anything>/environment` of the model. */
  predicate InEnvironment(model: Json, at: seq<Step>) {
    && |at| >= 3 && at[0] == Key("services") && at[2] == Key("environment")
    && match Lookup(model, at[..3]) { case Some(v) => v.Record? case None => false }
  }

  /** Same kind of node, same leaf value, same keys, same length. */
  predicate SameShape(a: Json, b: Json) {
    match a
    case Record(m) => b.Record? && m.Keys == b.members.Keys
    case List(e) => b.List? && |e| == |b.elements|
    case _ => a == b
  }

  /**
   The sanitised model has a value at exactly the addresses the model has one. A leaf becomes the marker of
   its own address and value if it lies below an environment object, and is unchanged otherwise; an object
   keeps its keys and an array its length.
   */
  lemma SanitizeExact(sha: string -> string, model: Json, at: seq<Step>)
    ensures match Lookup(model, at)
            case None => Lookup(Sanitize(sha, model, []), at) == None
            case Some(v) =>
              && Lookup(Sanitize(sha, model, []), at).Some?
              && var w := Lookup(Sanitize(sha, model, []), at).value;
                 if IsLeaf(v) && InEnvironment(model, at) then w == LeafMarker(sha, PathOf(at), v)
                 else SameShape(v, w)
  {
    SanitizeLookup(sha, model, [], at);
    assert PathOf([]) == [] && [] + at == at;
    if Lookup(model, at).Some? {
      ShapeKept(sha, Lookup(model, at).value, PathOf(at));
    }
  }

  lemma ShapeKept(sha: string -> string, v: Json, path: seq<string>)
    ensures SameShape(v, Sanitize(sha, v, path))
    ensures if IsLeaf(v) then Digest(sha, v, path) == LeafMarker(sha, path, v) else SameShape(v, Digest(sha, v, path))
  {
  }

  lemma SegmentOfKey(step: Step, k: string)
    ensures Segment(step) == KeySegment(k) <==> step == Key(k)
  {
    if step.Key? {
      assert KeySegment(step.key)[4..] == step.key && KeySegment(k)[4..] == k;
    } else {
      assert Segment(step)[0] != KeySegment(k)[0];
    }
  }

  lemma EnvironmentPath(at: seq<Step>)
    ensures IsEnvironmentPath(PathOf(at)) <==> |at| == 3 && at[0] == Key("services") && at[2] == Key("environment")
  {
    if |at| == 3 {
      SegmentOfKey(at[0], "services");
      SegmentOfKey(at[2], "environment");
      assert KeySegment("services") == "key:services";
      assert KeySegment("environment") == "key:environment";
    }
  }

  lemma PathOfStep(pre: seq<Step>, step: Step)
    ensures PathOf(pre + [step]) == PathOf(pre) + [Segment(step)]
  {
  }

  lemma ChildOfDigest(sha: string -> string, v: Json, pre: seq<Step>, step: Step)
    requires !IsLeaf(v)
    ensures match Child(v, step)
            case None => Child(Digest(sha, v, PathOf(pre)), step) == None
            case Some(c) => Child(Digest(sha, v, PathOf(pre)), step) == Some(Digest(sha, c, PathOf(pre + [step])))
  {
    PathOfStep(pre, step);
  }

  /** What is found at `at` below a digested value is the digest of what was there. */
  lemma {:induction false} DigestLookup(sha: string -> string, v: Json, pre: seq<Step>, at: seq<Step>)
    ensures match Lookup(v, at)
            case None => Lookup(Digest(sha, v, PathOf(pre)), at) == None
            case Some(w) => Lookup(Digest(sha, v, PathOf(pre)), at) == Some(Digest(sha, w, PathOf(pre + at)))
    decreases |at|
  {
    if at == [] {
      assert pre + at == pre;
    } else if !IsLeaf(v) {
      ChildOfDigest(sha, v, pre, at[0]);
      if Child(v, at[0]).Some? {
        DigestLookup(sha, Child(v, at[0]).value, pre + [at[0]], at[1..]);
        assert (pre + [at[0]]) + at[1..] == pre + at;
      }
    }
  }

  /** `InEnvironment` seen from the value `v` that sits at the address `pre`. */
  predicate InEnvironmentFrom(v: Json, pre: seq<Step>, at: seq<Step>) {
    && |pre| <= 3 <= |pre| + |at| && (pre + at)[0] == Key("services") && (pre + at)[2] == Key("environment")
    && match Lookup(v, at[..3 - |pre|]) { case Some(w) => w.Record? case None => false }
  }

  lemma InEnvironmentStep(v: Json, pre: seq<Step>, at: seq<Step>)
    requires at != [] && Child(v, at[0]).Some?
    requires !(v.Record? && IsEnvironmentPath(PathOf(pre)))
    ensures InEnvironmentFrom(v, pre, at) == InEnvironmentFrom(Child(v, at[0]).value, pre + [at[0]], at[1..])
  {
    EnvironmentPath(pre);
    assert (pre + [at[0]]) + at[1..] == pre + at;
    if |pre| < 3 <= |pre| + |at| {
      assert at[..3 - |pre|][1..] == at[1..][..2 - |pre|];
    } else if |pre| == 3 {
      assert at[..0] == [];
      assert (pre + at)[0] == pre[0] && (pre + at)[2] == pre[2];
    }
  }

  lemma ChildOfSanitize(sha: string -> string, v: Json, pre: seq<Step>, step: Step)
    requires !IsLeaf(v) && !(v.Record? && IsEnvironmentPath(PathOf(pre)))
    ensures match Child(v, step)
            case None => Child(Sanitize(sha, v, PathOf(pre)), step) == None
            case Some(c) => Child(Sanitize(sha, v, PathOf(pre)), step) == Some(Sanitize(sha, c, PathOf(pre + [step])))
  {
    PathOfStep(pre, step);
  }

  lemma {:induction false} SanitizeLookup(sha: string -> string, v: Json, pre: seq<Step>, at: seq<Step>)
    ensures match Lookup(v, at)
            case None => Lookup(Sanitize(sha, v, PathOf(pre)), at) == None
            case Some(w) =>
              Lookup(Sanitize(sha, v, PathOf(pre)), at)
              == Some(if InEnvironmentFrom(v, pre, at) then Digest(sha, w, PathOf(pre + at))
                      else Sanitize(sha, w, PathOf(pre + at)))
    decreases |at|
  {
    EnvironmentPath(pre);
    if v.Record? && IsEnvironmentPath(PathOf(pre)) {
      DigestLookup(sha, v, pre, at);
      assert at[..0] == [];
    } else if at == [] {
      assert pre + at == pre;
    } else if !IsLeaf(v) {
      ChildOfSanitize(sha, v, pre, at[0]);
      if Child(v, at[0]).Some? {
        InEnvironmentStep(v, pre, at);
        SanitizeLookup(sha, Child(v, at[0]).value, pre + [at[0]], at[1..]);
        assert (pre + [at[0]]) + at[1..] == pre + at;
      }
    }
  }

  // ----- the traversal -----

  /** The `path: &mut Vec<String>` that the traversal pushes to and pops from. */
  class PathStack {
    var segments: seq<string>

    constructor ()
      ensures segments == []
    {
      segments := [];
    }

    method Push(segment: string)
      modifies this
      ensures segments == old(segments) + [segment]
    {
      segments := segments + [segment];
    }

    method Pop()
      requires segments != []
      modifies this
      ensures segments == old(segments)[..|old(segments)| - 1]
    {
      segments := segments[..|segments| - 1];
    }
  }

  /** `compose_environment_value_hash_marker`. */
  method WriteMarker(sha: string -> string, path: seq<string>, v: Json) returns (marker: Json)
    ensures marker == LeafMarker(sha, path, v)
  {
    var writer := new CanonicalWriter();
    writer.WriteFields(DigestFields(path, v));
    assert writer.output == EncFields(DigestFields(path, v));
    marker := Json.Text(VERSION + (":sha256:" + sha(writer.output)));
  }

  /** `digest_json_leaf_values`: the path stack is back to what it was when the call returns. */
  method DigestLeafValues(sha: string -> string, v: Json, path: PathStack) returns (r: Json)
    modifies path
    ensures r == Digest(sha, v, old(path.segments))
    ensures path.segments == old(path.segments)
    decreases v, 1
  {
    match v {
      case Record(_) =>
        r := DigestLeafValuesMembers(sha, v, path);
      case List(_) => r := DigestLeafValuesElements(sha, v, path);
      case _ => r := WriteMarker(sha, path.segments, v);
    }
  }

  method DigestLeafValuesMembers(sha: string -> string, v: Json, path: PathStack) returns (r: Json)
    requires v.Record?
    modifies path
    ensures r == Digest(sha, v, old(path.segments))
    ensures path.segments == old(path.segments)
    decreases v, 0
  {
    var done: map<string, Json>, left := map[], v.members.Keys;
    while left != {}
      invariant path.segments == old(path.segments)
      invariant left <= v.members.Keys && done.Keys == v.members.Keys - left
      invariant forall k :: k in done ==> done[k] == Digest(sha, v.members[k], path.segments + [KeySegment(k)])
    {
      var k :| k in left;
      path.Push(KeySegment(k));
      var child := DigestLeafValues(sha, v.members[k], path);
      path.Pop();
      done, left := done[k := child], left - {k};
    }
    r := Record(done);
  }

  method DigestLeafValuesElements(sha: string -> string, v: Json, path: PathStack) returns (r: Json)
    requires v.List?
    modifies path
    ensures r == Digest(sha, v, old(path.segments))
    ensures path.segments == old(path.segments)
    decreases v, 0
  {
    var done := [];
    for i := 0 to |v.elements|
      invariant path.segments == old(path.segments)
      invariant |done| == i
      invariant forall j :: 0 <= j < i ==> done[j] == Digest(sha, v.elements[j], path.segments + [IndexSegment(j)])
    {
      path.Push(IndexSegment(i));
      var child := DigestLeafValues(sha, v.elements[i], path);
      path.Pop();
      done := done + [child];
    }
    r := List(done);
  }

  /** `sanitize_compose_canonical_model_value`. */
  method SanitizeValue(sha: string -> string, v: Json, path: PathStack) returns (r: Json)
    modifies path
    ensures r == Sanitize(sha, v, old(path.segments))
    ensures path.segments == old(path.segments)
    decreases v, 1
  {
    match v {
      case Record(_) =>
        if IsEnvironmentPath(path.segments) {
          r := DigestLeafValues(sha, v, path);
          return;
        }
        r := SanitizeValueMembers(sha, v, path);
      case List(_) => r := SanitizeValueElements(sha, v, path);
      case _ => r := v;
    }
  }

  method SanitizeValueMembers(sha: string -> string, v: Json, path: PathStack) returns (r: Json)
    requires v.Record? && !IsEnvironmentPath(path.segments)
    modifies path
    ensures r == Sanitize(sha, v, old(path.segments))
    ensures path.segments == old(path.segments)
    decreases v, 0
  {
    var done: map<string, Json>, left := map[], v.members.Keys;
    while left != {}
      invariant path.segments == old(path.segments)
      invariant left <= v.members.Keys && done.Keys == v.members.Keys - left
      invariant forall k :: k in done ==> done[k] == Sanitize(sha, v.members[k], path.segments + [KeySegment(k)])
    {
      var k :| k in left;
      path.Push(KeySegment(k));
      var child := SanitizeValue(sha, v.members[k], path);
      path.Pop();
      done, left := done[k := child], left - {k};
    }
    r := Record(done);
  }

  method SanitizeValueElements(sha: string -> string, v: Json, path: PathStack) returns (r: Json)
    requires v.List?
    modifies path
    ensures r == Sanitize(sha, v, old(path.segments))
    ensures path.segments == old(path.segments)
    decreases v, 0
  {
    var done := [];
    for i := 0 to |v.elements|
      invariant path.segments == old(path.segments)
      invariant |done| == i
      invariant forall j :: 0 <= j < i ==> done[j] == Sanitize(sha, v.elements[j], path.segments + [IndexSegment(j)])
    {
      path.Push(IndexSegment(i));
      var child := SanitizeValue(sha, v.elements[i], path);
      path.Pop();
      done := done + [child];
    }
    r := List(done);
  }
}
