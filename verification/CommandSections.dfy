/**
 src/config/hash.rs: the sections of the preimage that hold credentials, hooks and lifecycle commands.
 */
module CommandSections {
  import opened Text
  import opened Canonical
  import opened HashShapes

  // ----- credentials -----

  datatype GitHttpsMode = HttpsOff | HostHelper | HostHelperReadOnly
  datatype SshAgentMode = AgentOff | Auto | Required
  datatype GithubMode = GithubOff | GhTokenFile

  datatype GitCredentials = GitCredentials(
    enabled: bool, copyUser: bool, copyGlobalConfig: bool, https: GitHttpsMode, sshAgent: SshAgentMode)

  datatype GithubCredentials = GithubCredentials(enabled: bool, mode: GithubMode, installFeatureIfMissing: bool)

  datatype Credentials = Credentials(git: GitCredentials, github: GithubCredentials)

  function HttpsName(m: GitHttpsMode): string {
    match m
    case HttpsOff => "off"
    case HostHelper => "host-helper"
    case HostHelperReadOnly => "host-helper-read-only"
  }

  function AgentName(m: SshAgentMode): string {
    match m
    case AgentOff => "off"
    case Auto => "auto"
    case Required => "required"
  }

  function GithubModeName(m: GithubMode): string {
    match m
    case GithubOff => "off"
    case GhTokenFile => "gh-token-file"
  }

  function GitDoc(x: GitCredentials): Doc {
    Object("GitCredentials", [
      Field("enabled", Bool(x.enabled)), Field("copy_user", Bool(x.copyUser)),
      Field("copy_global_config", Bool(x.copyGlobalConfig)), Field("https", Str(HttpsName(x.https))),
      Field("ssh_agent", Str(AgentName(x.sshAgent)))])
  }

  function GithubDoc(x: GithubCredentials): Doc {
    Object("GithubCredentials", [
      Field("enabled", Bool(x.enabled)), Field("mode", Str(GithubModeName(x.mode))),
      Field("install_feature_if_missing", Bool(x.installFeatureIfMissing))])
  }

  function CredentialsDoc(x: Credentials): Doc {
    Object("Credentials", [Field("git", GitDoc(x.git)), Field("github", GithubDoc(x.github))])
  }

  lemma CredentialsFaithful()
    ensures Faithful(CredentialsDoc)
  {
    forall a, b | CredentialsDoc(a) == CredentialsDoc(b) ensures a == b {
      assert CredentialsDoc(a).fields[0] == CredentialsDoc(b).fields[0];
      assert CredentialsDoc(a).fields[1] == CredentialsDoc(b).fields[1];
      GitUnique(a.git, b.git);
      GithubUnique(a.github, b.github);
    }
  }

  lemma GitUnique(a: GitCredentials, b: GitCredentials)
    requires GitDoc(a) == GitDoc(b)
    ensures a == b
  {
    var p, q := GitDoc(a).fields, GitDoc(b).fields;
    assert p[0] == q[0] && p[1] == q[1] && p[2] == q[2] && p[3] == q[3] && p[4] == q[4];
    assert |HttpsName(a.https)| == |HttpsName(b.https)| && |AgentName(a.sshAgent)| == |AgentName(b.sshAgent)|;
  }

  lemma GithubUnique(a: GithubCredentials, b: GithubCredentials)
    requires GithubDoc(a) == GithubDoc(b)
    ensures a == b
  {
    var p, q := GithubDoc(a).fields, GithubDoc(b).fields;
    assert p[0] == q[0] && p[1] == q[1] && p[2] == q[2];
    assert |GithubModeName(a.mode)| == |GithubModeName(b.mode)|;
  }

  // ----- hooks -----

  datatype Command = Shell(line: string) | Args(args: seq<string>)

  datatype HookLocation = OnHost | InContainer

  datatype Hook = Hook(
    command: Command, location: Option<HookLocation>, user: Option<string>, shell: bool, workdir: Option<string>)

  datatype Hooks = Hooks(
    beforeInitialize: seq<Hook>, afterInitialize: seq<Hook>, beforeOnCreate: seq<Hook>, afterOnCreate: seq<Hook>,
    beforeUpdateContent: seq<Hook>, afterUpdateContent: seq<Hook>, beforePostCreate: seq<Hook>,
    afterPostCreate: seq<Hook>, beforePostStart: seq<Hook>, afterPostStart: seq<Hook>,
    beforePostAttach: seq<Hook>, afterPostAttach: seq<Hook>)

  function CommandDoc(c: Command): Doc {
    match c
    case Shell(line) => Object("ShellCommand", [Field("value", Str(line))])
    case Args(args) => Object("ArgsCommand", [Field("value", StrsDoc(args))])
  }

  function LocationDoc(l: HookLocation): Doc {
    Str(match l case OnHost => "host" case InContainer => "container")
  }

  function HookDoc(x: Hook): Doc {
    Object("Hook", [
      Field("command", CommandDoc(x.command)), Field("location", Maybe(x.location, LocationDoc)),
      Field("user", Maybe(x.user, StrDoc)), Field("shell", Bool(x.shell)), Field("workdir", Maybe(x.workdir, StrDoc))])
  }

  function HookListDoc(hooks: seq<Hook>): Doc {
    Each(hooks, HookDoc)
  }

  function HooksDoc(x: Hooks): Doc {
    Object("Hooks",
           [ Field("before_initialize", HookListDoc(x.beforeInitialize)),
             Field("after_initialize", HookListDoc(x.afterInitialize)),
             Field("before_on_create", HookListDoc(x.beforeOnCreate)),
             Field("after_on_create", HookListDoc(x.afterOnCreate)),
             Field("before_update_content", HookListDoc(x.beforeUpdateContent)),
             Field("after_update_content", HookListDoc(x.afterUpdateContent)) ]
           + [ Field("before_post_create", HookListDoc(x.beforePostCreate)),
               Field("after_post_create", HookListDoc(x.afterPostCreate)),
               Field("before_post_start", HookListDoc(x.beforePostStart)),
               Field("after_post_start", HookListDoc(x.afterPostStart)),
               Field("before_post_attach", HookListDoc(x.beforePostAttach)),
               Field("after_post_attach", HookListDoc(x.afterPostAttach)) ])
  }

  lemma CommandUnique(a: Command, b: Command)
    requires CommandDoc(a) == CommandDoc(b)
    ensures a == b
  {
    assert |CommandDoc(a).name| == |CommandDoc(b).name|;
    assert CommandDoc(a).fields[0] == CommandDoc(b).fields[0];
    if a.Args? {
      BasicsFaithful();
      EachFaithful(StrDoc, a.args, b.args);
    }
  }

  lemma HookFaithful()
    ensures Faithful(HookDoc)
  {
    BasicsFaithful();
    assert Faithful(LocationDoc) by {
      forall a, b | LocationDoc(a) == LocationDoc(b) ensures a == b {
        assert |LocationDoc(a).text| == |LocationDoc(b).text|;
      }
    }
    forall a, b | HookDoc(a) == HookDoc(b) ensures a == b {
      var p, q := HookDoc(a).fields, HookDoc(b).fields;
      assert p[0] == q[0] && p[1] == q[1] && p[2] == q[2] && p[3] == q[3] && p[4] == q[4];
      CommandUnique(a.command, b.command);
      MaybeFaithful(LocationDoc, a.location, b.location);
      MaybeFaithful(StrDoc, a.user, b.user);
      MaybeFaithful(StrDoc, a.workdir, b.workdir);
    }
  }

  lemma HookListFaithful()
    ensures Faithful(HookListDoc)
  {
    HookFaithful();
    forall a, b | HookListDoc(a) == HookListDoc(b) ensures a == b { EachFaithful(HookDoc, a, b); }
  }

  /** The twelve hook lists are determined by what is written of them. */
  lemma HooksFaithful()
    ensures Faithful(HooksDoc)
  {
    HookListFaithful();
    forall a, b | HooksDoc(a) == HooksDoc(b) ensures a == b {
      var p, q := HooksDoc(a).fields, HooksDoc(b).fields;
      assert p[0] == q[0] && p[1] == q[1] && p[2] == q[2] && p[3] == q[3] && p[4] == q[4] && p[5] == q[5];
      assert p[6] == q[6] && p[7] == q[7] && p[8] == q[8] && p[9] == q[9] && p[10] == q[10] && p[11] == q[11];
    }
  }

  // ----- lifecycle -----

  datatype LifecycleCommand =
    | ShellLine(line: string)
    | ArgList(args: seq<string>)
    | Parallel(commands: map<string, LifecycleCommand>)

  datatype LifecycleStage = Initialize | OnCreate | UpdateContent | PostCreate | PostStart | PostAttach

  datatype WaitFor = WaitInitialize | WaitOnCreate | WaitUpdateContent | WaitPostCreate | WaitPostStart

  datatype Lifecycle = Lifecycle(commands: map<LifecycleStage, seq<LifecycleCommand>>, waitFor: WaitFor) {
    /** `commands`: a stage that is not listed has none. */
    function Of(stage: LifecycleStage): seq<LifecycleCommand> {
      if stage in commands then commands[stage] else []
    }
  }

  function LifecycleCommandDoc(c: LifecycleCommand): Doc {
    match c
    case ShellLine(line) => Object("LifecycleShell", [Field("value", Str(line))])
    case ArgList(args) => Object("LifecycleArgs", [Field("value", StrsDoc(args))])
    case Parallel(commands) =>
      Object("LifecycleParallel", [Field("value", Map(map k | k in commands :: LifecycleCommandDoc(commands[k])))])
  }

  function StageDoc(commands: seq<LifecycleCommand>): Doc {
    if commands == [] then Absent else Each(commands, LifecycleCommandDoc)
  }

  function WaitForName(w: WaitFor): string {
    match w
    case WaitInitialize => "initializeCommand"
    case WaitOnCreate => "onCreateCommand"
    case WaitUpdateContent => "updateContentCommand"
    case WaitPostCreate => "postCreateCommand"
    case WaitPostStart => "postStartCommand"
  }

  function LifecycleDoc(x: Lifecycle): Doc {
    Object("Lifecycle", [
      Field("initializeCommand", StageDoc(x.Of(Initialize))), Field("onCreateCommand", StageDoc(x.Of(OnCreate))),
      Field("updateContentCommand", StageDoc(x.Of(UpdateContent))),
      Field("postCreateCommand", StageDoc(x.Of(PostCreate))),
      Field("postStartCommand", StageDoc(x.Of(PostStart))), Field("postAttachCommand", StageDoc(x.Of(PostAttach))),
      Field("wait_for", Str(WaitForName(x.waitFor)))])
  }

  /** Parallel commands nest to any depth, and two trees that are written alike are the same tree. */
  lemma {:induction false} LifecycleCommandUnique(a: LifecycleCommand, b: LifecycleCommand)
    requires LifecycleCommandDoc(a) == LifecycleCommandDoc(b)
    ensures a == b
  {
    var x, y := LifecycleCommandDoc(a), LifecycleCommandDoc(b);
    assert |x.name| == |y.name| && x.fields[0] == y.fields[0];
    match a
    case ShellLine(_) =>
    case ArgList(args) =>
      BasicsFaithful();
      EachFaithful(StrDoc, args, b.args);
    case Parallel(commands) =>
      var da, db := x.fields[0].value.entries, y.fields[0].value.entries;
      assert commands.Keys == da.Keys == db.Keys == b.commands.Keys;
      forall k | k in commands ensures commands[k] == b.commands[k] {
        assert da[k] == db[k];
        LifecycleCommandUnique(commands[k], b.commands[k]);
      }
  }

  lemma StageUnique(a: seq<LifecycleCommand>, b: seq<LifecycleCommand>)
    requires StageDoc(a) == StageDoc(b)
    ensures a == b
  {
    forall c, d | LifecycleCommandDoc(c) == LifecycleCommandDoc(d) ensures c == d { LifecycleCommandUnique(c, d); }
    if a != [] { EachFaithful(LifecycleCommandDoc, a, b); }
  }

  lemma WaitForUnique(a: WaitFor, b: WaitFor)
    requires WaitForName(a) == WaitForName(b)
    ensures a == b
  {
    assert |WaitForName(a)| == |WaitForName(b)| && WaitForName(a)[0] == WaitForName(b)[0];
  }

  /** What the hash sees of a lifecycle: a stage without commands is a stage that is not listed. */
  ghost predicate SameLifecycle(a: Lifecycle, b: Lifecycle) {
    a.waitFor == b.waitFor && forall stage :: a.Of(stage) == b.Of(stage)
  }

  /** The lifecycle section is the same exactly when every stage has the same commands and `waitFor` agrees. */
  lemma LifecycleFaithful(a: Lifecycle, b: Lifecycle)
    ensures LifecycleDoc(a) == LifecycleDoc(b) <==> SameLifecycle(a, b)
  {
    if LifecycleDoc(a) == LifecycleDoc(b) {
      var p, q := LifecycleDoc(a).fields, LifecycleDoc(b).fields;
      assert p[0] == q[0] && p[1] == q[1] && p[2] == q[2] && p[3] == q[3] && p[4] == q[4] && p[5] == q[5]
             && p[6] == q[6];
      StageUnique(a.Of(Initialize), b.Of(Initialize));
      StageUnique(a.Of(OnCreate), b.Of(OnCreate));
      StageUnique(a.Of(UpdateContent), b.Of(UpdateContent));
      StageUnique(a.Of(PostCreate), b.Of(PostCreate));
      StageUnique(a.Of(PostStart), b.Of(PostStart));
      StageUnique(a.Of(PostAttach), b.Of(PostAttach));
      WaitForUnique(a.waitFor, b.waitFor);
      forall stage ensures a.Of(stage) == b.Of(stage) {
        match stage
        case Initialize =>
        case OnCreate =>
        case UpdateContent =>
        case PostCreate =>
        case PostStart =>
        case PostAttach =>
      }
    }
  }

  ghost predicate SameOptionalLifecycle(a: Option<Lifecycle>, b: Option<Lifecycle>) {
    match (a, b)
    case (None, None) => true
    case (Some(x), Some(y)) => SameLifecycle(x, y)
    case _ => false
  }

  lemma OptionalLifecycleFaithful(a: Option<Lifecycle>, b: Option<Lifecycle>)
    ensures Maybe(a, LifecycleDoc) == Maybe(b, LifecycleDoc) <==> SameOptionalLifecycle(a, b)
  {
    if a.Some? && b.Some? { LifecycleFaithful(a.value, b.value); }
  }
}
