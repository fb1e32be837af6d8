/**
 src/config/hash.rs: the preimage of `config_hash`, section by section, and what equal hashes mean.

 Every `*Doc` function is the tree of calls its `write_*` function makes. SHA-256 is the parameter `sha`.
 */
module ConfigHash {
  import opened Text
  import opened Canonical
  import opened ComposeModel
  import opened ConfigTypes
  import opened HashShapes
  import opened CommandSections
  import opened StableSort

  // ----- the inputs -----

  datatype ShutdownAction = NoAction | StopContainer | StopCompose
  datatype UserEnvProbe = NoProbe | LoginShell | InteractiveShell | LoginInteractiveShell

  datatype Endpoint = Endpoint(service: string, env: string, value: string)

  datatype CloneIsolation = CloneIsolation(
    enabled: bool, relocation: bool, subnetPool: Option<string>, subnetPrefix: Option<nat>,
    rewriteContainerNames: bool, rewriteResourceNames: bool, endpoints: seq<Endpoint>)

  datatype Source =
    | Image(image: string)
    | Dockerfile(dockerfile: string, context: Option<string>, args: map<string, string>,
                 options: seq<string>, target: Option<string>, cacheFrom: seq<string>)
    | Compose(files: seq<string>, service: string, runServices: Option<seq<string>>)

  datatype DevcontainerMount = MountString(value: string) | MountObject(values: map<string, Json>)

  datatype RunArg =
    | AddHost(value: string) | Dns(value: string) | DnsSearch(value: string)
    | Passthrough(option: string, value: string)

  /** `portAttributes` and `otherPortsAttributes` are not written. */
  datatype Devcontainer = Devcontainer(
    source: Option<Source>, featureOrder: seq<string>, mounts: seq<DevcontainerMount>,
    workspaceMount: Option<string>, workspaceFolder: Option<string>,
    containerEnv: map<string, string>, remoteEnv: map<string, string>,
    remoteUser: Option<string>, containerUser: Option<string>,
    portAttributes: map<string, Attributes>, otherPortsAttributes: Option<Attributes>,
    updateRemoteUserUid: bool, overrideCommand: bool, shutdownAction: ShutdownAction,
    userEnvProbe: Option<UserEnvProbe>,
    publishPorts: seq<PublishPort>, runArgs: seq<RunArg>, init: Option<bool>, privileged: Option<bool>,
    capAdd: seq<string>, securityOpt: seq<string>, entrypoints: seq<string>, lifecycle: Option<Lifecycle>)

  /** `ports`, `autoPorts`, `automaticRelocation`, `warnOnRelocation` and `cliEnabled` are not written. */
  datatype Config = Config(
    shell: Option<string>, features: seq<Feature>, dotfileEntries: seq<DotfileEntry>, dotfiles: seq<Dotfile>,
    mounts: seq<ConfigMount>, ports: seq<Request>, autoPorts: AutoConfig, automaticRelocation: bool,
    warnOnRelocation: bool, mappings: seq<PortMapping>, cloneIsolation: CloneIsolation, cliEnabled: bool,
    devcontainer: Devcontainer, credentials: Credentials, hooks: Hooks)

  datatype FeatureLock = FeatureLock(featureId: string, digest: string)

  datatype BuildInput = BuildInput(
    dockerfilePath: Option<string>, dockerfileContentHash: Option<string>, contextPath: Option<string>,
    dockerignorePath: Option<string>, dockerignoreContentHash: Option<string>, contextContentHash: Option<string>)

  datatype ComposeFile = ComposeFile(canonicalPath: string, digest: string)
  datatype GeneratedOverride = GeneratedOverride(path: string, contentHash: string)

  datatype ResolvedMount = ResolvedMount(
    source: Option<string>, target: string, mountType: MountType, readOnly: bool, consistency: Option<string>,
    bindOptions: Option<BindOptions>, volumeOptions: Option<VolumeOptions>)

  datatype StartupCommand = StartupCommand(entrypoint: seq<string>, command: seq<string>)

  datatype SyncState = Sync | Noop(reason: string)

  datatype UidGidSync = UidGidSync(
    state: SyncState, hostUid: nat, hostGid: nat, targetKind: Option<string>, targetUser: Option<string>)

  datatype HashInput = HashInput(
    config: Config, featureLocks: seq<FeatureLock>, cliFlags: map<string, Toml>,
    internalVersions: map<string, string>, build: Option<BuildInput>, composeFiles: seq<ComposeFile>,
    generatedOverride: Option<GeneratedOverride>, composeModel: Option<Json>, resolvedMounts: seq<ResolvedMount>,
    startupCommand: Option<StartupCommand>, uidGidSync: Option<UidGidSync>,
    sensitiveContainerEnvKeys: seq<string>, sensitiveBuildArgKeys: seq<string>)

  // ----- the sections -----

  function MountTypeName(t: MountType): string {
    match t
    case Bind => "bind"
    case Volume => "volume"
    case Tmpfs => "tmpfs"
  }

  function ProtocolName(p: Protocol): string {
    match p
    case Tcp => "tcp"
    case Udp => "udp"
  }

  function OriginName(o: Origin): string {
    match o
    case Global => "global"
    case Project => "project"
  }

  function ConflictName(c: Conflict): string {
    match c
    case Fail => "fail"
    case ReplaceSymlink => "replace-symlink"
    case Backup => "backup"
  }

  function ShutdownActionName(a: ShutdownAction): string {
    match a
    case NoAction => "none"
    case StopContainer => "stopContainer"
    case StopCompose => "stopCompose"
  }

  function ProbeDoc(p: UserEnvProbe): Doc {
    Str(match p
        case NoProbe => "none"
        case LoginShell => "loginShell"
        case InteractiveShell => "interactiveShell"
        case LoginInteractiveShell => "loginInteractiveShell")
  }

  function FeatureDoc(x: Feature): Doc {
    Object("Feature", [
      Field("id", Str(x.id)), Field("canonical_id", Str(x.canonicalId)), Field("options", Entries(x.options, TomlDoc))])
  }

  function DotfileDoc(x: Dotfile): Doc {
    Object("Dotfile", [
      Field("source", Str(x.source)), Field("target", Str(x.target)), Field("read_only", Bool(x.readOnly)),
      Field("resolve_symlink", Bool(x.resolveSymlink)), Field("on_conflict", Str(ConflictName(x.onConflict))),
      Field("origin", Str(OriginName(x.origin)))])
  }

  function DotfileEntryDoc(x: DotfileEntry): Doc {
    match x
    case Enabled(dotfile) => DotfileDoc(dotfile)
    case Disabled(target, origin) =>
      Object("Dotfile", [
        Field("target", Str(target)), Field("enabled", Bool(false)), Field("origin", Str(OriginName(origin)))])
  }

  function DotfilesDoc(x: Config): Doc {
    if x.dotfileEntries == [] then Each(x.dotfiles, DotfileDoc) else Each(x.dotfileEntries, DotfileEntryDoc)
  }

  function ConfigMountDoc(x: ConfigMount): Doc {
    Object("Mount", [
      Field("source", Maybe(x.source, StrDoc)), Field("target", Str(x.target)),
      Field("type", Str(MountTypeName(x.mountType))), Field("read_only", Bool(x.readOnly)),
      Field("resolve_symlink", Bool(x.resolveSymlink)),
      Field("create", if x.createDirectory then Str("directory") else Absent)])
  }

  function MappingDoc(x: PortMapping): Doc {
    Object("PublishedPortMapping", [
      Field("service", Str(x.service)), Field("target", NatDoc(x.target)),
      Field("protocol", Str(ProtocolName(x.protocol))),
      Field("host", NatDoc(x.host)), Field("host_ip", Maybe(x.hostIp, StrDoc))])
  }

  function EndpointDoc(x: Endpoint): Doc {
    Object("Endpoint", [Field("service", Str(x.service)), Field("env", Str(x.env)), Field("value", Str(x.value))])
  }

  function CloneIsolationDoc(x: CloneIsolation): Doc {
    Object("CloneIsolation",
           [Field("enabled", Bool(x.enabled))]
           + if !x.enabled then [] else [
             Field("networks", Object("Networks", [
               Field("relocation", Bool(x.relocation)), Field("subnet_pool", Maybe(x.subnetPool, StrDoc)),
               Field("subnet_prefix", Maybe(x.subnetPrefix, NatDoc))])),
             Field("names", Object("Names", [
               Field("rewrite_container_names", Bool(x.rewriteContainerNames)),
               Field("rewrite_resource_names", Bool(x.rewriteResourceNames))])),
             Field("endpoints", Each(x.endpoints, EndpointDoc))])
  }

  function ComposeDoc(x: Config): Doc {
    Object("Compose",
           Optional("published_port_mappings", if x.mappings == [] then None else Some(Each(x.mappings, MappingDoc)))
           + [Field("clone_isolation", CloneIsolationDoc(x.cloneIsolation))])
  }

  function SecretMarker(sha: string -> string, kind: string, version: string, prefix: string, key: string,
                        value: string): string {
    var fields := [Field("version", Str(version)), Field("key", Str(key)), Field("value", Str(value))];
    prefix + (sha(Enc(Object(kind, fields))) + ">")
  }

  function ContainerEnvMarker(sha: string -> string, key: string, value: string): string {
    SecretMarker(sha, "LocalEnvDerivedContainerEnvDigest", "decune-container-env-digest-v1",
                 "<localEnv-derived-value-sha256:", key, value)
  }

  function BuildArgMarker(sha: string -> string, key: string, value: string): string {
    SecretMarker(sha, "LocalEnvDerivedBuildArgDigest", "decune-build-arg-digest-v1",
                 "<localEnv-derived-build-arg-sha256:", key, value)
  }

  function ContainerEnvForHash(sha: string -> string, env: map<string, string>, sensitive: seq<string>)
    : map<string, string>
  {
    map k | k in env :: if k in sensitive then ContainerEnvMarker(sha, k, env[k]) else env[k]
  }

  function BuildArgsForHash(sha: string -> string, args: map<string, string>, sensitive: seq<string>)
    : map<string, string>
  {
    map k | k in args :: if k in sensitive then BuildArgMarker(sha, k, args[k]) else args[k]
  }

  function SourceDoc(sha: string -> string, x: Source, sensitive: seq<string>): Doc {
    match x
    case Image(image) => Object("ImageSource", [Field("image", Str(image))])
    case Dockerfile(dockerfile, context, args, options, target, cacheFrom) =>
      Object("DockerfileSource", [
        Field("dockerfile", Str(dockerfile)), Field("context", Maybe(context, StrDoc)),
        Field("args", StrMapDoc(BuildArgsForHash(sha, args, sensitive))), Field("options", StrsDoc(options)),
        Field("target", Maybe(target, StrDoc)), Field("cache_from", StrsDoc(cacheFrom))])
    case Compose(files, service, runServices) =>
      Object("ComposeSource", [
        Field("files", StrsDoc(files)), Field("service", Str(service)),
        Field("run_services", Maybe(runServices, StrsDoc))])
  }

  function OptionalSourceDoc(sha: string -> string, x: Option<Source>, sensitive: seq<string>): Doc {
    match x
    case None => Absent
    case Some(source) => SourceDoc(sha, source, sensitive)
  }

  function DevcontainerMountDoc(x: DevcontainerMount): Doc {
    match x
    case MountString(value) => Object("DevcontainerMountString", [Field("value", Str(value))])
    case MountObject(values) => Object("DevcontainerMountObject", [Field("value", Entries(values, JsonDoc))])
  }

  function PortDoc(p: u16): Doc { Str(Dec(p)) }

  function PublishPortDoc(x: PublishPort): Doc {
    Object("PublishPort", [
      Field("container", PortDoc(x.container)), Field("host", Maybe(x.host, PortDoc)),
      Field("host_ip", Maybe(x.hostIp, StrDoc)), Field("protocol", Str(ProtocolName(x.protocol)))])
  }

  function RunArgDoc(x: RunArg): Doc {
    match x
    case AddHost(value) => Object("AddHost", [Field("value", Str(value))])
    case Dns(value) => Object("Dns", [Field("value", Str(value))])
    case DnsSearch(value) => Object("DnsSearch", [Field("value", Str(value))])
    case Passthrough(option, value) => Object("Passthrough", [Field("option", Str(option)), Field("value", Str(value))])
  }

  function WorkspaceFields(sha: string -> string, x: Devcontainer, envKeys: seq<string>, argKeys: seq<string>)
    : (r: seq<Field>)
    ensures |r| == 7
  {
    [ Field("source", OptionalSourceDoc(sha, x.source, argKeys)),
      Field("override_feature_install_order", StrsDoc(x.featureOrder)),
      Field("mounts", Each(x.mounts, DevcontainerMountDoc)),
      Field("workspace_mount", Maybe(x.workspaceMount, StrDoc)),
      Field("workspace_folder", Maybe(x.workspaceFolder, StrDoc)),
      Field("container_env", StrMapDoc(ContainerEnvForHash(sha, x.containerEnv, envKeys))),
      Field("remote_env", StrMapDoc(x.remoteEnv)) ]
  }

  function UserFields(x: Devcontainer): (r: seq<Field>)
    ensures |r| == 7
  {
    [ Field("remote_user", Maybe(x.remoteUser, StrDoc)),
      Field("container_user", Maybe(x.containerUser, StrDoc)),
      Field("update_remote_user_uid", Bool(x.updateRemoteUserUid)),
      Field("override_command", Bool(x.overrideCommand)),
      Field("shutdown_action", Str(ShutdownActionName(x.shutdownAction))),
      Field("user_env_probe", Maybe(x.userEnvProbe, ProbeDoc)),
      Field("publish_ports", Each(x.publishPorts, PublishPortDoc)) ]
  }

  function RunFields(x: Devcontainer): (r: seq<Field>)
    ensures |r| == 7
  {
    [ Field("run_args", Each(x.runArgs, RunArgDoc)),
      Field("init", Maybe(x.init, BoolDoc)),
      Field("privileged", Maybe(x.privileged, BoolDoc)),
      Field("cap_add", StrsDoc(x.capAdd)),
      Field("security_opt", StrsDoc(x.securityOpt)),
      Field("entrypoints", StrsDoc(x.entrypoints)),
      Field("lifecycle", Maybe(x.lifecycle, LifecycleDoc)) ]
  }

  function DevcontainerFields(sha: string -> string, x: Devcontainer, envKeys: seq<string>, argKeys: seq<string>)
    : seq<Field>
  {
    WorkspaceFields(sha, x, envKeys, argKeys) + (UserFields(x) + RunFields(x))
  }

  function DevcontainerDoc(sha: string -> string, x: Devcontainer, envKeys: seq<string>, argKeys: seq<string>): Doc {
    Object("Devcontainer", DevcontainerFields(sha, x, envKeys, argKeys))
  }

  function Four(k: string, a: Doc, l: string, b: Doc, m: string, c: Doc, n: string, d: Doc): (r: seq<Field>)
    ensures |r| == 4
  {
    [Field(k, a), Field(l, b), Field(m, c), Field(n, d)]
  }

  function ConfigDoc(sha: string -> string, input: HashInput): Doc {
    var x := input.config;
    Object("ResolvedConfig",
           Four("shell", Maybe(x.shell, StrDoc), "features", Each(x.features, FeatureDoc),
                "dotfiles", DotfilesDoc(x), "mounts", Each(x.mounts, ConfigMountDoc))
           + Four("compose", ComposeDoc(x),
                  "devcontainer", DevcontainerDoc(sha, x.devcontainer, input.sensitiveContainerEnvKeys,
                                                  input.sensitiveBuildArgKeys),
                  "credentials", CredentialsDoc(x.credentials), "hooks", HooksDoc(x.hooks)))
  }

  function FeatureLockDoc(x: FeatureLock): Doc {
    Object("FeatureLock", [Field("feature_id", Str(x.featureId)), Field("digest", Str(x.digest))])
  }

  function BuildDoc(x: BuildInput): Doc {
    Object("Build", [
      Field("dockerfile_path", Maybe(x.dockerfilePath, StrDoc)),
      Field("dockerfile_content_hash", Maybe(x.dockerfileContentHash, StrDoc)),
      Field("context_path", Maybe(x.contextPath, StrDoc)),
      Field("dockerignore_path", Maybe(x.dockerignorePath, StrDoc)),
      Field("dockerignore_content_hash", Maybe(x.dockerignoreContentHash, StrDoc)),
      Field("context_content_hash", Maybe(x.contextContentHash, StrDoc))])
  }

  function ComposeFileDoc(x: ComposeFile): Doc {
    Object("ComposeFile", [Field("canonical_path", Str(x.canonicalPath)), Field("digest", Str(x.digest))])
  }

  function OverrideDoc(x: GeneratedOverride): Doc {
    Object("ComposeGeneratedOverride", [Field("path", Str(x.path)), Field("content_hash", Str(x.contentHash))])
  }

  function BindOptionsDoc(x: BindOptions): Doc {
    Object("MountBindOptions", [
      Field("propagation", Maybe(x.propagation, StrDoc)), Field("non_recursive", Maybe(x.nonRecursive, BoolDoc)),
      Field("create_mountpoint", Maybe(x.createMountpoint, BoolDoc)),
      Field("read_only_non_recursive", Maybe(x.readOnlyNonRecursive, BoolDoc)),
      Field("read_only_force_recursive", Maybe(x.readOnlyForceRecursive, BoolDoc))])
  }

  function DriverConfigDoc(x: DriverConfig): Doc {
    Object("MountVolumeDriverConfig", [
      Field("name", Maybe(x.name, StrDoc)), Field("options", Maybe(x.options, StrMapDoc))])
  }

  function VolumeOptionsDoc(x: VolumeOptions): Doc {
    Object("MountVolumeOptions", [
      Field("no_copy", Maybe(x.noCopy, BoolDoc)), Field("labels", Maybe(x.labels, StrMapDoc)),
      Field("driver_config", Maybe(x.driverConfig, DriverConfigDoc)), Field("subpath", Maybe(x.subpath, StrDoc))])
  }

  function ResolvedMountDoc(x: ResolvedMount): Doc {
    Object("ResolvedMountSpec", [
      Field("source", Maybe(x.source, StrDoc)), Field("target", Str(x.target)),
      Field("type", Str(MountTypeName(x.mountType))), Field("read_only", Bool(x.readOnly)),
      Field("consistency", Maybe(x.consistency, StrDoc)), Field("bind_options", Maybe(x.bindOptions, BindOptionsDoc)),
      Field("volume_options", Maybe(x.volumeOptions, VolumeOptionsDoc))])
  }

  function StartupDoc(x: StartupCommand): Doc {
    Object("StartupCommand", [Field("entrypoint", StrsDoc(x.entrypoint)), Field("command", StrsDoc(x.command))])
  }

  function SyncStateName(s: SyncState): string {
    match s
    case Sync => "sync"
    case Noop(reason) => "noop:" + reason
  }

  function UidGidDoc(x: UidGidSync): Doc {
    Object("UidGidSync", [
      Field("state", Str(SyncStateName(x.state))), Field("host_uid", NatDoc(x.hostUid)),
      Field("host_gid", NatDoc(x.hostGid)),
      Field("target_kind", Maybe(x.targetKind, StrDoc)), Field("target_user", Maybe(x.targetUser, StrDoc))])
  }

  // ----- feature locks -----

  predicate LockLess(a: FeatureLock, b: FeatureLock) {
    Less(a.featureId, b.featureId) || (a.featureId == b.featureId && Less(a.digest, b.digest))
  }

  function LockLe(): (FeatureLock, FeatureLock) -> bool {
    (a: FeatureLock, b: FeatureLock) => !LockLess(b, a)
  }

  /** `sort_by` on feature id, then digest. */
  function SortedLocks(entries: seq<FeatureLock>): seq<FeatureLock> {
    Sort(entries, LockLe())
  }

  // ----- the preimage -----

  /** The fields before the optional ones, around the document of the configuration. */
  function HeadAround(config: Doc, input: HashInput): (r: seq<Field>)
    ensures |r| == 6
  {
    [ Field("version", Str("decune-config-hash-v1")),
      Field("resolved_config", config),
      Field("feature_locks", Each(SortedLocks(input.featureLocks), FeatureLockDoc)),
      Field("cli_flags", Entries(input.cliFlags, TomlDoc)),
      Field("internal_versions", StrMapDoc(input.internalVersions)),
      Field("build", Maybe(input.build, BuildDoc)) ]
  }

  function HeadFields(sha: string -> string, input: HashInput): seq<Field> {
    HeadAround(ConfigDoc(sha, input), input)
  }

  function ComposeFilesField(input: HashInput): seq<Field> {
    Optional("compose_files", if input.composeFiles == [] then None else Some(Each(input.composeFiles, ComposeFileDoc)))
  }

  function OverrideField(input: HashInput): seq<Field> {
    Optional("compose_generated_override", match input.generatedOverride
             case None => None
             case Some(v) => Some(OverrideDoc(v)))
  }

  function ModelField(sha: string -> string, input: HashInput): seq<Field> {
    Optional("compose_canonical_model", match input.composeModel
             case None => None
             case Some(v) => Some(JsonDoc(Sanitize(sha, v, []))))
  }

  function TailFields(input: HashInput): seq<Field> {
    [ Field("resolved_mounts", Each(input.resolvedMounts, ResolvedMountDoc)),
      Field("startup_command", Maybe(input.startupCommand, StartupDoc)),
      Field("uid_gid_sync", Maybe(input.uidGidSync, UidGidDoc)) ]
  }

  function PreimageFields(sha: string -> string, input: HashInput): seq<Field> {
    HeadFields(sha, input)
    + (ComposeFilesField(input) + (OverrideField(input) + (ModelField(sha, input) + TailFields(input))))
  }

  function HashOf(sha: string -> string, input: HashInput): string {
    sha(EncFields(PreimageFields(sha, input)))
  }
}
