/**
 The resolved configuration entities that several parts of the program share
 (src/config/types.rs, src/config/resolved.rs).
 */
module ConfigTypes {
  import opened Text
  import opened Canonical

  type u16 = n: nat | n < 0x1_0000

  datatype MountType = Bind | Volume | Tmpfs
  datatype Protocol = Tcp | Udp
  datatype Origin = Global | Project
  datatype Conflict = Fail | ReplaceSymlink | Backup

  datatype Feature = Feature(id: string, canonicalId: string, options: map<string, Toml>)

  datatype Dotfile = Dotfile(
    source: string, target: string, readOnly: bool, resolveSymlink: bool, onConflict: Conflict, origin: Origin)

  datatype DotfileEntry = Enabled(dotfile: Dotfile) | Disabled(target: string, origin: Origin)

  datatype ConfigMount = ConfigMount(
    source: Option<string>, target: string, mountType: MountType, readOnly: bool, resolveSymlink: bool,
    createDirectory: bool, origin: Origin)

  datatype PortMapping = PortMapping(
    service: string, target: u16, protocol: Protocol, host: u16, hostIp: Option<string>)

  /** A port to forward; `host` is the requested host port. */
  datatype Request = Request(
    service: Option<string>, container: u16, host: Option<u16>, hostIp: string, protocol: Protocol,
    requireLocal: bool, name: Option<string>)

  datatype OnAutoForward = Notify | Silent | Ignore

  datatype BindOptions = BindOptions(
    propagation: Option<string>, nonRecursive: Option<bool>, createMountpoint: Option<bool>,
    readOnlyNonRecursive: Option<bool>, readOnlyForceRecursive: Option<bool>)

  datatype DriverConfig = DriverConfig(name: Option<string>, options: Option<map<string, string>>)

  datatype VolumeOptions = VolumeOptions(
    noCopy: Option<bool>, labels: Option<map<string, string>>, driverConfig: Option<DriverConfig>,
    subpath: Option<string>)

  datatype PublishPort = PublishPort(container: u16, host: Option<u16>, hostIp: Option<string>, protocol: Protocol)

  datatype AutoConfig = AutoConfig(enabled: bool, min: u16, max: u16, ignore: seq<u16>, onAutoForward: OnAutoForward)

  datatype Attributes = Attributes(name: Option<string>, onAutoForward: Option<OnAutoForward>,
                                   requireLocal: Option<bool>)
}
