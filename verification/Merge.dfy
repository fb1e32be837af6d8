/**
 src/config/merge.rs: merging configuration layers. The accumulator keeps ordered lists and changes them
 in place; `Merged` is its value.
 */
module Merge {
  import opened Text
  import opened Canonical
  import opened ConfigTypes
  import opened KeyedList
  import opened FeatureId
  import opened StableSort

  // ----- layers -----

  datatype LayerFeature = LayerFeature(id: string, canonicalId: string, enabled: bool, options: map<string, Toml>)

  /** A dotfile without a source changes nothing unless it disables its target. */
  datatype LayerDotfile = LayerDotfile(
    enabled: bool, source: Option<string>, target: string, readOnly: bool, resolveSymlink: bool,
    onConflict: Conflict, origin: Origin)

  datatype LayerMount = LayerMount(
    enabled: bool, source: Option<string>, target: string, mountType: Option<MountType>, readOnly: bool,
    resolveSymlink: bool, createDirectory: bool, origin: Origin)

  datatype LayerPort = LayerPort(enabled: bool, port: Request)

  datatype LayerForwardPort = LayerForwardPort(port: Request, attributeKeys: seq<string>)

  datatype LayerMapping = LayerMapping(
    enabled: bool, service: string, target: u16, protocol: Protocol, host: Option<u16>, hostIp: Option<string>)

  datatype Layer = Layer(
    features: seq<LayerFeature>, dotfiles: seq<LayerDotfile>, mounts: seq<LayerMount>, ports: seq<LayerPort>,
    forwardPorts: seq<LayerForwardPort>, mappings: seq<LayerMapping>, portAttributes: map<string, Attributes>,
    publishPorts: seq<PublishPort>, capAdd: seq<string>, securityOpt: seq<string>)

  datatype Priority = ImageMetadata | GlobalConfig | Devcontainer | ProjectConfig | Cli

  function Rank(p: Priority): nat {
    match p
    case ImageMetadata => 0
    case GlobalConfig => 1
    case Devcontainer => 2
    case ProjectConfig => 3
    case Cli => 4
  }

  datatype MergeInput = MergeInput(
    imageMetadata: seq<Layer>, featureMetadata: seq<Layer>,
    global: Option<Layer>, devcontainer: Option<Layer>, project: Option<Layer>, cli: Option<Layer>)

  datatype Source = Source(layer: Layer, priority: Priority)

  // ----- the accumulator's value -----

  datatype MergedPort = MergedPort(port: Request, attributeKeys: seq<string>, priority: Priority)

  datatype Merged = Merged(
    features: seq<Feature>, dotfileEntries: seq<DotfileEntry>, dotfiles: seq<Dotfile>, mounts: seq<ConfigMount>,
    ports: seq<MergedPort>, mappings: seq<PortMapping>, portAttributes: map<string, Attributes>,
    publishPorts: seq<PublishPort>, capAdd: seq<string>, securityOpt: seq<string>)

  const EMPTY := Merged([], [], [], [], [], [], map[], [], [], [])

  // ----- identities -----

  datatype PortKey = PortKey(protocol: Protocol, service: Option<string>, container: u16, hostIp: string)
  datatype MappingKey = MappingKey(service: string, protocol: Protocol, target: u16)

  function RequestKey(p: Request): PortKey { PortKey(p.protocol, p.service, p.container, p.hostIp) }
  function KeyOfPort(p: MergedPort): PortKey { RequestKey(p.port) }
  function KeyOfMapping(m: PortMapping): MappingKey { MappingKey(m.service, m.protocol, m.target) }
  function KeyOfMount(m: ConfigMount): string { m.target }
  function KeyOfDotfile(d: Dotfile): string { d.target }

  function KeyOfEntry(e: DotfileEntry): string {
    match e
    case Enabled(d) => d.target
    case Disabled(target, _) => target
  }

  function KeyOfFeature(f: Feature): string { MergeIdentity(f.id) }

  // ----- what each layer entry does to its list -----

  function MountOps(m: LayerMount): seq<Op<ConfigMount, string>> {
    if !m.enabled then [Drop(m.target)]
    else
      match m.mountType
      case None => []
      case Some(t) =>
        [Put(ConfigMount(m.source, m.target, t, m.readOnly, m.resolveSymlink, m.createDirectory, m.origin))]
  }

  function ResolvedDotfile(d: LayerDotfile, source: string): Dotfile {
    Dotfile(source, d.target, d.readOnly, d.resolveSymlink, d.onConflict, d.origin)
  }

  function DotfileOps(d: LayerDotfile): seq<Op<Dotfile, string>> {
    if !d.enabled then [Drop(d.target)]
    else
      match d.source
      case None => []
      case Some(source) => [Put(ResolvedDotfile(d, source))]
  }

  function EntryOps(d: LayerDotfile): seq<Op<DotfileEntry, string>> {
    if !d.enabled then [Put(Disabled(d.target, d.origin))]
    else
      match d.source
      case None => []
      case Some(source) => [Put(Enabled(ResolvedDotfile(d, source)))]
  }

  function MappingOps(m: LayerMapping): seq<Op<PortMapping, MappingKey>> {
    if !m.enabled then [Drop(MappingKey(m.service, m.protocol, m.target))]
    else
      match m.host
      case None => []
      case Some(host) => [Put(PortMapping(m.service, m.target, m.protocol, host, m.hostIp))]
  }

  function PortOps(p: LayerPort, priority: Priority): seq<Op<MergedPort, PortKey>> {
    if !p.enabled then [Drop(RequestKey(p.port))] else [Put(MergedPort(p.port, [], priority))]
  }

  function ForwardOps(p: LayerForwardPort, priority: Priority): seq<Op<MergedPort, PortKey>> {
    [Put(MergedPort(p.port, p.attributeKeys, priority))]
  }

  function PortOpsAt(priority: Priority): LayerPort -> seq<Op<MergedPort, PortKey>> {
    (p: LayerPort) => PortOps(p, priority)
  }

  function ForwardOpsAt(priority: Priority): LayerForwardPort -> seq<Op<MergedPort, PortKey>> {
    (p: LayerForwardPort) => ForwardOps(p, priority)
  }

  /** `merge_feature`. */
  function MergeFeature(fs: seq<Feature>, f: LayerFeature): seq<Feature> {
    if !f.enabled then RemoveCanonical(fs, f.canonicalId)
    else
      match Find(fs, MergeIdentity(f.id), KeyOfFeature)
      case None => fs + [Feature(f.id, f.canonicalId, f.options)]
      case Some(existing) => Replace(fs, existing.(id := f.id, options := existing.options + f.options), KeyOfFeature)
  }

  function RemoveCanonical(fs: seq<Feature>, c: string): seq<Feature> {
    Remove(fs, c, CanonicalOf)
  }

  function CanonicalOf(f: Feature): string { f.canonicalId }

  // ----- one layer, and all of them -----

  /** The entries of a list, each turned into its operations, in order. */
  function Flat<A, B>(xs: seq<A>, f: A -> seq<B>): seq<B> {
    if xs == [] then [] else Flat(xs[..|xs| - 1], f) + f(xs[|xs| - 1])
  }

  function MergeFeatures(fs: seq<Feature>, layer: seq<LayerFeature>): seq<Feature> {
    if layer == [] then fs else MergeFeature(MergeFeatures(fs, layer[..|layer| - 1]), layer[|layer| - 1])
  }

  function LayerPortOps(s: Source): seq<Op<MergedPort, PortKey>> {
    Flat(s.layer.ports, PortOpsAt(s.priority)) + Flat(s.layer.forwardPorts, ForwardOpsAt(s.priority))
  }

  function LayerMountOps(s: Source): seq<Op<ConfigMount, string>> { Flat(s.layer.mounts, MountOps) }
  function LayerDotfileOps(s: Source): seq<Op<Dotfile, string>> { Flat(s.layer.dotfiles, DotfileOps) }
  function LayerEntryOps(s: Source): seq<Op<DotfileEntry, string>> { Flat(s.layer.dotfiles, EntryOps) }
  function LayerMappingOps(s: Source): seq<Op<PortMapping, MappingKey>> { Flat(s.layer.mappings, MappingOps) }

  function LayerPublishPorts(s: Source): seq<PublishPort> { s.layer.publishPorts }
  function LayerCapAdd(s: Source): seq<string> { s.layer.capAdd }
  function LayerSecurityOpt(s: Source): seq<string> { s.layer.securityOpt }

  /** `apply_layer`. */
  function ApplyLayer(m: Merged, s: Source): Merged {
    Merged(
      MergeFeatures(m.features, s.layer.features),
      ApplyAll(m.dotfileEntries, LayerEntryOps(s), KeyOfEntry),
      ApplyAll(m.dotfiles, LayerDotfileOps(s), KeyOfDotfile),
      ApplyAll(m.mounts, LayerMountOps(s), KeyOfMount),
      ApplyAll(m.ports, LayerPortOps(s), KeyOfPort),
      ApplyAll(m.mappings, LayerMappingOps(s), KeyOfMapping),
      m.portAttributes + s.layer.portAttributes,
      Union(m.publishPorts, s.layer.publishPorts),
      Union(m.capAdd, s.layer.capAdd),
      Union(m.securityOpt, s.layer.securityOpt))
  }

  function MergeAll(sources: seq<Source>): Merged {
    if sources == [] then EMPTY else ApplyLayer(MergeAll(sources[..|sources| - 1]), sources[|sources| - 1])
  }

  // ----- the end result -----

  /** `attributes_for_keys`: the attributes of the first key that has some. */
  function AttributesForKeys(attributes: map<string, Attributes>, keys: seq<string>): Option<Attributes> {
    if keys == [] then None
    else if keys[0] in attributes then Some(attributes[keys[0]])
    else AttributesForKeys(attributes, keys[1..])
  }

  /** `apply_forward_port_attributes` on one entry. */
  function WithAttributes(attributes: map<string, Attributes>, p: MergedPort): MergedPort {
    if p.attributeKeys == [] then p
    else
      match AttributesForKeys(attributes, p.attributeKeys)
      case None => p.(port := p.port.(name := None, requireLocal := false))
      case Some(a) =>
        p.(port := p.port.(name := a.name,
                           requireLocal := match a.requireLocal case Some(required) => required case None => false))
  }

  function AllWithAttributes(attributes: map<string, Attributes>, ps: seq<MergedPort>): seq<MergedPort> {
    seq(|ps|, i requires 0 <= i < |ps| => WithAttributes(attributes, ps[i]))
  }

  /** Higher source priority first. */
  function PriorityLe(): (MergedPort, MergedPort) -> bool {
    (a: MergedPort, b: MergedPort) => Rank(a.priority) >= Rank(b.priority)
  }

  predicate MappingLess(a: MappingKey, b: MappingKey) {
    || Less(a.service, b.service)
    || (a.service == b.service
        && ((a.protocol.Tcp? && b.protocol.Udp?) || (a.protocol == b.protocol && a.target < b.target)))
  }

  function MappingLe(): (PortMapping, PortMapping) -> bool {
    (a: PortMapping, b: PortMapping) => !MappingLess(KeyOfMapping(b), KeyOfMapping(a))
  }

  /** `into_resolved`: attributes applied, ports sorted by priority, mappings sorted by identity. */
  function Resolved(m: Merged): Merged {
    m.(ports := Sort(AllWithAttributes(m.portAttributes, m.ports), PriorityLe()),
       mappings := Sort(m.mappings, MappingLe()))
  }

  function PortEntries(m: Merged): seq<Request> {
    seq(|m.ports|, i requires 0 <= i < |m.ports| => m.ports[i].port)
  }

  function Given(layer: Option<Layer>, p: Priority): seq<Source> {
    match layer
    case None => []
    case Some(l) => [Source(l, p)]
  }

  /** The layers in the order they are applied. */
  function Sources(input: MergeInput): seq<Source> {
    seq(|input.imageMetadata|, i requires 0 <= i < |input.imageMetadata| =>
        Source(input.imageMetadata[i], ImageMetadata))
    + seq(|input.featureMetadata|, i requires 0 <= i < |input.featureMetadata| =>
          Source(input.featureMetadata[i], ImageMetadata))
    + Given(input.global, GlobalConfig) + Given(input.devcontainer, Devcontainer)
    + Given(input.project, ProjectConfig) + Given(input.cli, Cli)
  }
}
