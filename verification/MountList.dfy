/**
 src/docker/mounts.rs, `config_mount_specs_with_host_path_create`: the mount list of a container.

 `HostPaths` stands for the resolution of bind sources on the host. A devcontainer mount arrives with its
 fields already parsed and expanded.
 */
module MountList {
  import opened Text
  import opened ConfigTypes
  import opened KeyedList
  import opened StableSort
  import opened ContainerPath
  import opened Variables

  datatype ParsedMount = ParsedMount(
    source: Option<string>, target: string, mountType: MountType, readOnly: bool, consistency: Option<string>,
    bindOptions: Option<BindOptions>, volumeOptions: Option<VolumeOptions>)

  /** `mountType` is never `Tmpfs`: those mounts are refused. */
  datatype DockerMount = DockerMount(
    source: Option<string>, target: string, mountType: MountType, readOnly: bool, consistency: Option<string>,
    bindOptions: Option<BindOptions>, volumeOptions: Option<VolumeOptions>)

  datatype HostPaths = HostPaths(
    configured: ConfigMount -> Result<string>, expanded: (string, bool) -> Result<string>,
    context: Context, env: LocalEnv)

  datatype MountInput = MountInput(configured: seq<ConfigMount>, devcontainer: seq<Result<ParsedMount>>,
                                   host: HostPaths)

  // ----- one mount -----

  function ExpandSource(source: Option<string>, h: HostPaths): Result<Option<string>> {
    match source
    case None => Ok(None)
    case Some(s) => (match ExpandPlain(s, h.context, h.env) case Err => Err case Ok(v) => Ok(Some(v)))
  }

  function ExpandTarget(target: string, h: HostPaths): Result<string> {
    match ExpandPlain(target, h.context, h.env)
    case Err => Err
    case Ok(t) => ValidateTarget(t)
  }

  /** `resolved_mount_spec`. */
  function ConfiguredSpec(m: ConfigMount, h: HostPaths): Result<DockerMount> {
    match ExpandTarget(m.target, h)
    case Err => Err
    case Ok(target) =>
      match m.mountType
      case Bind =>
        if m.source.None? then Err
        else (match h.configured(m)
              case Err => Err
              case Ok(source) => Ok(DockerMount(Some(source), target, Bind, m.readOnly, None, None, None)))
      case Volume =>
        (match ExpandSource(m.source, h)
         case Err => Err
         case Ok(source) => Ok(DockerMount(source, target, Volume, m.readOnly, None, None, None)))
      case Tmpfs => Err
  }

  predicate CreatesSource(options: Option<BindOptions>) {
    options.Some? && options.value.createMountpoint == Some(true)
  }

  /** `devcontainer_mount_spec_with_host_path_create`. */
  function DevcontainerSpec(parsed: Result<ParsedMount>, h: HostPaths): Result<DockerMount> {
    match parsed
    case Err => Err
    case Ok(p) =>
      match ValidateTarget(p.target)
      case Err => Err
      case Ok(target) =>
        match p.mountType
        case Bind =>
          if p.source.None? then Err
          else (match h.expanded(p.source.value, CreatesSource(p.bindOptions))
                case Err => Err
                case Ok(source) =>
                  Ok(DockerMount(Some(source), target, Bind, p.readOnly, p.consistency, p.bindOptions, None)))
        case Volume => Ok(DockerMount(p.source, target, Volume, p.readOnly, p.consistency, None, p.volumeOptions))
        case Tmpfs => Err
  }

  // ----- the list -----

  function Target(m: DockerMount): string { m.target }

  function FromOrigin(o: Origin): ConfigMount -> bool {
    (m: ConfigMount) => m.origin == o
  }

  function ConfiguredSpecs(ms: seq<ConfigMount>, h: HostPaths): seq<Result<DockerMount>> {
    seq(|ms|, i requires 0 <= i < |ms| => ConfiguredSpec(ms[i], h))
  }

  function DevcontainerSpecs(ms: seq<Result<ParsedMount>>, h: HostPaths): seq<Result<DockerMount>> {
    seq(|ms|, i requires 0 <= i < |ms| => DevcontainerSpec(ms[i], h))
  }

  /** The mounts in the order they are written: global configuration, devcontainer, project configuration. */
  function Specs(input: MountInput): seq<Result<DockerMount>> {
    ConfiguredSpecs(Filter(input.configured, FromOrigin(Global)), input.host)
    + DevcontainerSpecs(input.devcontainer, input.host)
    + ConfiguredSpecs(Filter(input.configured, FromOrigin(Project)), input.host)
  }

  /** `replace_mount_by_target` for each mount in turn; the first error ends it. */
  function Place(done: seq<DockerMount>, specs: seq<Result<DockerMount>>): Result<seq<DockerMount>>
    decreases |specs|
  {
    if specs == [] then Ok(done)
    else
      match specs[0]
      case Err => Err
      case Ok(m) => Place(Replace(done, m, Target), specs[1..])
  }

  method PlaceConfigured(done: seq<DockerMount>, ms: seq<ConfigMount>, o: Origin, h: HostPaths)
    returns (r: Result<seq<DockerMount>>)
    ensures r == Place(done, ConfiguredSpecs(Filter(ms, FromOrigin(o)), h))
  {
    var placed := done;
    assert ms[0..] == ms;
    for i := 0 to |ms|
      invariant Place(done, ConfiguredSpecs(Filter(ms, FromOrigin(o)), h))
                == Place(placed, ConfiguredSpecs(Filter(ms[i..], FromOrigin(o)), h))
    {
      ConfiguredTurn(ms, i, o, h);
      if ms[i].origin != o {
        continue;
      }
      match ConfiguredSpec(ms[i], h) {
        case Err => return Err;
        case Ok(m) => placed := ReplaceByIdentity(placed, m, Target);
      }
    }
    assert Filter(ms[|ms|..], FromOrigin(o)) == [];
    r := Ok(placed);
  }

  lemma ConfiguredTurn(ms: seq<ConfigMount>, i: nat, o: Origin, h: HostPaths)
    requires i < |ms|
    ensures var specs := ConfiguredSpecs(Filter(ms[i..], FromOrigin(o)), h);
            var later := ConfiguredSpecs(Filter(ms[i + 1..], FromOrigin(o)), h);
            if ms[i].origin != o then specs == later
            else specs != [] && specs[0] == ConfiguredSpec(ms[i], h) && specs[1..] == later
  {
    FilterTurn(ms, i, FromOrigin(o));
    if ms[i].origin == o { SpecsCons(ms[i], Filter(ms[i + 1..], FromOrigin(o)), h); }
  }

  lemma FilterTurn<T>(xs: seq<T>, i: nat, p: T -> bool)
    requires i < |xs|
    ensures Filter(xs[i..], p) == if p(xs[i]) then [xs[i]] + Filter(xs[i + 1..], p) else Filter(xs[i + 1..], p)
  {
    assert xs[i..][0] == xs[i] && xs[i..][1..] == xs[i + 1..];
  }

  lemma SpecsCons(m: ConfigMount, later: seq<ConfigMount>, h: HostPaths)
    ensures var specs := ConfiguredSpecs([m] + later, h);
            specs != [] && specs[0] == ConfiguredSpec(m, h) && specs[1..] == ConfiguredSpecs(later, h)
  {
  }

  method PlaceDevcontainer(done: seq<DockerMount>, ms: seq<Result<ParsedMount>>, h: HostPaths)
    returns (r: Result<seq<DockerMount>>)
    ensures r == Place(done, DevcontainerSpecs(ms, h))
  {
    var placed := done;
    assert ms[0..] == ms;
    for i := 0 to |ms|
      invariant Place(done, DevcontainerSpecs(ms, h)) == Place(placed, DevcontainerSpecs(ms[i..], h))
    {
      assert DevcontainerSpecs(ms[i..], h)[1..] == DevcontainerSpecs(ms[i + 1..], h);
      match DevcontainerSpec(ms[i], h) {
        case Err => return Err;
        case Ok(m) => placed := ReplaceByIdentity(placed, m, Target);
      }
    }
    r := Ok(placed);
  }

  lemma {:induction false} PlaceConcat(done: seq<DockerMount>, a: seq<Result<DockerMount>>, b: seq<Result<DockerMount>>)
    ensures Place(done, a + b) == match Place(done, a) case Err => Err case Ok(ms) => Place(ms, b)
    decreases |a|
  {
    if a == [] {
      assert a + b == b;
    } else {
      assert (a + b)[0] == a[0] && (a + b)[1..] == a[1..] + b;
      match a[0]
      case Err =>
      case Ok(m) => PlaceConcat(Replace(done, m, Target), a[1..], b);
    }
  }

  /** `config_mount_specs_with_host_path_create`. */
  method ConfigMountSpecs(input: MountInput) returns (r: Result<seq<DockerMount>>)
    ensures r == Place([], Specs(input))
  {
    ghost var global := ConfiguredSpecs(Filter(input.configured, FromOrigin(Global)), input.host);
    ghost var middle := DevcontainerSpecs(input.devcontainer, input.host);
    PlaceConcat([], global + middle, ConfiguredSpecs(Filter(input.configured, FromOrigin(Project)), input.host));
    PlaceConcat([], global, middle);
    var first := PlaceConfigured([], input.configured, Global, input.host);
    match first {
      case Err => return Err;
      case Ok(a) =>
        var second := PlaceDevcontainer(a, input.devcontainer, input.host);
        match second {
          case Err => return Err;
          case Ok(b) => r := PlaceConfigured(b, input.configured, Project, input.host);
        }
    }
  }

  // ----- what the list looks like -----

  /** `m` is the last of the mounts `specs` that goes to its target. */
  ghost predicate IsLastWriter(specs: seq<Result<DockerMount>>, m: DockerMount) {
    exists i :: 0 <= i < |specs| && specs[i] == Ok(m) && NotWrittenAfter(specs, i, m.target)
  }

  ghost predicate NotWrittenAfter(specs: seq<Result<DockerMount>>, i: nat, target: string) {
    forall j :: i < j < |specs| && specs[j].Ok? ==> specs[j].value.target != target
  }

  ghost predicate NeverWritten(specs: seq<Result<DockerMount>>, target: string) {
    forall j :: 0 <= j < |specs| && specs[j].Ok? ==> specs[j].value.target != target
  }

  lemma {:induction false} PlaceRefines(done: seq<DockerMount>, specs: seq<Result<DockerMount>>)
    requires Distinct(done, Target) && Place(done, specs).Ok?
    ensures var ms := Place(done, specs).value;
            && Distinct(ms, Target)
            && forall m ::
              m in ms <==> IsLastWriter(specs, m) || (m in done && NeverWritten(specs, m.target))
    decreases |specs|
  {
    if specs == [] {
    } else {
      var w := specs[0].value;
      var next := Replace(done, w, Target);
      ReplaceRefines(done, w, Target);
      PlaceRefines(next, specs[1..]);
      forall m ensures m in Place(done, specs).value
                       <==> IsLastWriter(specs, m) || (m in done && NeverWritten(specs, m.target))
      {
        ReplacedMember(done, w, m);
        LastWriterStep(specs, m);
        NotWrittenStep(specs, m.target);
      }
    }
  }

  lemma ReplacedMember(done: seq<DockerMount>, w: DockerMount, m: DockerMount)
    requires Distinct(done, Target)
    ensures m in Replace(done, w, Target) <==> m == w || (m in done && m.target != w.target)
  {
    ReplaceRefines(done, w, Target);
    FindOfDistinct(done, m, Target);
    FindOfDistinct(Replace(done, w, Target), m, Target);
  }

  lemma LastWriterStep(specs: seq<Result<DockerMount>>, m: DockerMount)
    requires specs != [] && specs[0].Ok?
    ensures IsLastWriter(specs, m)
            <==> IsLastWriter(specs[1..], m) || (m == specs[0].value && NeverWritten(specs[1..], m.target))
  {
    var rest := specs[1..];
    NotWrittenShift(specs, m.target);
    if IsLastWriter(rest, m) {
      var i :| 0 <= i < |rest| && rest[i] == Ok(m) && NotWrittenAfter(rest, i, m.target);
      assert specs[i + 1] == Ok(m) && NotWrittenAfter(specs, i + 1, m.target);
    }
    if IsLastWriter(specs, m) {
      var i :| 0 <= i < |specs| && specs[i] == Ok(m) && NotWrittenAfter(specs, i, m.target);
      if i > 0 { assert rest[i - 1] == Ok(m) && NotWrittenAfter(rest, i - 1, m.target); }
    }
  }

  lemma NotWrittenShift(specs: seq<Result<DockerMount>>, target: string)
    requires specs != []
    ensures NotWrittenAfter(specs, 0, target) <==> NeverWritten(specs[1..], target)
    ensures forall i: nat :: NotWrittenAfter(specs[1..], i, target) <==> NotWrittenAfter(specs, i + 1, target)
  {
    var rest := specs[1..];
    assert forall j :: 0 <= j < |rest| ==> rest[j] == specs[j + 1];
    assert forall j :: 0 < j < |specs| ==> specs[j] == rest[j - 1];
  }

  lemma NotWrittenStep(specs: seq<Result<DockerMount>>, target: string)
    requires specs != [] && specs[0].Ok?
    ensures NeverWritten(specs, target) <==> specs[0].value.target != target && NeverWritten(specs[1..], target)
  {
    var rest := specs[1..];
    assert forall j :: 0 <= j < |rest| ==> rest[j] == specs[j + 1];
    assert forall j :: 0 < j < |specs| ==> specs[j] == rest[j - 1];
  }

  /** A specification that succeeds has an acceptable, normalised target. */
  predicate GoodTarget(t: string) {
    StartsWith(t, "/") && Normalize(t) == t && !IsReserved(t)
  }

  lemma SpecTargetsAreGood(input: MountInput, i: nat)
    requires i < |Specs(input)| && Specs(input)[i].Ok?
    ensures GoodTarget(Specs(input)[i].value.target)
  {
    forall t ensures ValidateTarget(t).Ok? ==> GoodTarget(ValidateTarget(t).value) { ValidatedTargets(t); }
  }

  /**
   The mount list holds exactly the last writer of each target in global, devcontainer, project order, each
   target once, and every target is absolute, in normal form and not reserved.
   */
  lemma MountListIsLastWriters(input: MountInput)
    requires Place([], Specs(input)).Ok?
    ensures var ms := Place([], Specs(input)).value;
            && Distinct(ms, Target)
            && (forall m :: m in ms <==> IsLastWriter(Specs(input), m))
            && (forall m :: m in ms ==> GoodTarget(m.target))
  {
    PlaceRefines([], Specs(input));
    forall m | IsLastWriter(Specs(input), m) ensures GoodTarget(m.target) {
      var i :| 0 <= i < |Specs(input)| && Specs(input)[i] == Ok(m) && NotWrittenAfter(Specs(input), i, m.target);
      SpecTargetsAreGood(input, i);
    }
  }

  /** The list fails exactly when one of its mounts does. */
  lemma {:induction false} PlaceFailsExactly(done: seq<DockerMount>, specs: seq<Result<DockerMount>>)
    ensures Place(done, specs).Err? <==> exists i :: 0 <= i < |specs| && specs[i].Err?
    decreases |specs|
  {
    if specs != [] && specs[0].Ok? {
      PlaceFailsExactly(Replace(done, specs[0].value, Target), specs[1..]);
      assert forall i :: 0 <= i < |specs[1..]| ==> specs[1..][i] == specs[i + 1];
      if exists i :: 0 <= i < |specs| && specs[i].Err? {
        var i :| 0 <= i < |specs| && specs[i].Err?;
        assert specs[1..][i - 1].Err?;
      }
    }
  }
}
