/**
 src/config/merge.rs: the accumulator itself, updated in place layer by layer. Every method ties the new
 value of all its fields to the old one.
 */
module MergeAccumulator {
  import opened ConfigTypes
  import opened KeyedList
  import opened FeatureId
  import opened StableSort
  import opened Merge

  class Accumulator {
    var features: seq<Feature>
    var dotfileEntries: seq<DotfileEntry>
    var dotfiles: seq<Dotfile>
    var mounts: seq<ConfigMount>
    var ports: seq<MergedPort>
    var mappings: seq<PortMapping>
    var portAttributes: map<string, Attributes>
    var publishPorts: seq<PublishPort>
    var capAdd: seq<string>
    var securityOpt: seq<string>

    function Value(): Merged
      reads this
    {
      Merged(features, dotfileEntries, dotfiles, mounts, ports, mappings, portAttributes,
             publishPorts, capAdd, securityOpt)
    }

    constructor ()
      ensures Value() == EMPTY
    {
      features, dotfileEntries, dotfiles, mounts, ports, mappings := [], [], [], [], [], [];
      portAttributes, publishPorts, capAdd, securityOpt := map[], [], [], [];
    }

    /** `merge_feature`. */
    method MergeFeature(f: LayerFeature)
      modifies this
      ensures Value() == old(Value()).(features := Merge.MergeFeature(old(features), f))
    {
      if f.enabled {
        match Find(features, MergeIdentity(f.id), KeyOfFeature) {
          case Some(existing) =>
            features := ReplaceByIdentity(features, existing.(id := f.id, options := existing.options + f.options),
                                          KeyOfFeature);
          case None =>
            features := features + [Feature(f.id, f.canonicalId, f.options)];
        }
        return;
      }
      features := RemoveByIdentity(features, f.canonicalId, CanonicalOf);
    }

    /** `merge_dotfile`: the list of enabled dotfiles and the history change together. */
    method MergeDotfile(d: LayerDotfile)
      modifies this
      ensures Value() == old(Value()).(dotfiles := ApplyAll(old(dotfiles), DotfileOps(d), KeyOfDotfile),
                                       dotfileEntries := ApplyAll(old(dotfileEntries), EntryOps(d), KeyOfEntry))
    {
      if !d.enabled {
        dotfiles := RemoveByIdentity(dotfiles, d.target, KeyOfDotfile);
        dotfileEntries := ReplaceByIdentity(dotfileEntries, Disabled(d.target, d.origin), KeyOfEntry);
        return;
      }
      match d.source {
        case None =>
        case Some(source) =>
          var resolved := ResolvedDotfile(d, source);
          dotfiles := ReplaceByIdentity(dotfiles, resolved, KeyOfDotfile);
          dotfileEntries := ReplaceByIdentity(dotfileEntries, Enabled(resolved), KeyOfEntry);
      }
    }

    /** `merge_mount`. */
    method MergeMount(m: LayerMount)
      modifies this
      ensures Value() == old(Value()).(mounts := ApplyAll(old(mounts), MountOps(m), KeyOfMount))
    {
      if !m.enabled {
        mounts := RemoveByIdentity(mounts, m.target, KeyOfMount);
        return;
      }
      match m.mountType {
        case None =>
        case Some(t) =>
          mounts := ReplaceByIdentity(
            mounts, ConfigMount(m.source, m.target, t, m.readOnly, m.resolveSymlink, m.createDirectory, m.origin),
            KeyOfMount);
      }
    }

    /** `merge_port`. */
    method MergePort(p: LayerPort, priority: Priority)
      modifies this
      ensures Value() == old(Value()).(ports := ApplyAll(old(ports), PortOps(p, priority), KeyOfPort))
    {
      if !p.enabled {
        ports := RemoveByIdentity(ports, RequestKey(p.port), KeyOfPort);
        return;
      }
      ports := ReplaceByIdentity(ports, MergedPort(p.port, [], priority), KeyOfPort);
    }

    /** `merge_forward_port`. */
    method MergeForwardPort(p: LayerForwardPort, priority: Priority)
      modifies this
      ensures Value() == old(Value()).(ports := ApplyAll(old(ports), ForwardOps(p, priority), KeyOfPort))
    {
      ports := ReplaceByIdentity(ports, MergedPort(p.port, p.attributeKeys, priority), KeyOfPort);
    }

    /** One published-port mapping of `merge_compose`. */
    method MergeMapping(m: LayerMapping)
      modifies this
      ensures Value() == old(Value()).(mappings := ApplyAll(old(mappings), MappingOps(m), KeyOfMapping))
    {
      if !m.enabled {
        mappings := RemoveByIdentity(mappings, MappingKey(m.service, m.protocol, m.target), KeyOfMapping);
        return;
      }
      match m.host {
        case None =>
        case Some(host) =>
          mappings := ReplaceByIdentity(mappings, PortMapping(m.service, m.target, m.protocol, host, m.hostIp),
                                        KeyOfMapping);
      }
    }

    method MergeFeatureList(fs: seq<LayerFeature>)
      modifies this
      ensures Value() == old(Value()).(features := MergeFeatures(old(features), fs))
    {
      for i := 0 to |fs|
        invariant Value() == old(Value()).(features := MergeFeatures(old(features), fs[..i]))
      {
        assert fs[..i + 1][..i] == fs[..i];
        MergeFeature(fs[i]);
      }
      assert fs[..|fs|] == fs;
    }

    method MergeDotfileList(ds: seq<LayerDotfile>)
      modifies this
      ensures Value() == old(Value()).(dotfiles := ApplyAll(old(dotfiles), Flat(ds, DotfileOps), KeyOfDotfile),
                                       dotfileEntries := ApplyAll(old(dotfileEntries), Flat(ds, EntryOps), KeyOfEntry))
    {
      for i := 0 to |ds|
        invariant Value() == old(Value()).(dotfiles := ApplyAll(old(dotfiles), Flat(ds[..i], DotfileOps), KeyOfDotfile),
                                           dotfileEntries := ApplyAll(old(dotfileEntries), Flat(ds[..i], EntryOps),
                                                                      KeyOfEntry))
      {
        FlatTurn(old(dotfiles), ds, i, DotfileOps, KeyOfDotfile);
        FlatTurn(old(dotfileEntries), ds, i, EntryOps, KeyOfEntry);
        MergeDotfile(ds[i]);
      }
      assert ds[..|ds|] == ds;
    }

    method MergeMountList(ms: seq<LayerMount>)
      modifies this
      ensures Value() == old(Value()).(mounts := ApplyAll(old(mounts), Flat(ms, MountOps), KeyOfMount))
    {
      for i := 0 to |ms|
        invariant Value() == old(Value()).(mounts := ApplyAll(old(mounts), Flat(ms[..i], MountOps), KeyOfMount))
      {
        FlatTurn(old(mounts), ms, i, MountOps, KeyOfMount);
        MergeMount(ms[i]);
      }
      assert ms[..|ms|] == ms;
    }

    method MergePortList(ps: seq<LayerPort>, priority: Priority)
      modifies this
      ensures Value() == old(Value()).(ports := ApplyAll(old(ports), Flat(ps, PortOpsAt(priority)), KeyOfPort))
    {
      for i := 0 to |ps|
        invariant Value() == old(Value()).(ports := ApplyAll(old(ports), Flat(ps[..i], PortOpsAt(priority)), KeyOfPort))
      {
        FlatTurn(old(ports), ps, i, PortOpsAt(priority), KeyOfPort);
        MergePort(ps[i], priority);
      }
      assert ps[..|ps|] == ps;
    }

    method MergeForwardPortList(ps: seq<LayerForwardPort>, priority: Priority)
      modifies this
      ensures Value() == old(Value()).(ports := ApplyAll(old(ports), Flat(ps, ForwardOpsAt(priority)), KeyOfPort))
    {
      for i := 0 to |ps|
        invariant Value() == old(Value()).(ports := ApplyAll(old(ports), Flat(ps[..i], ForwardOpsAt(priority)),
                                                             KeyOfPort))
      {
        FlatTurn(old(ports), ps, i, ForwardOpsAt(priority), KeyOfPort);
        MergeForwardPort(ps[i], priority);
      }
      assert ps[..|ps|] == ps;
    }

    method MergeMappingList(ms: seq<LayerMapping>)
      modifies this
      ensures Value() == old(Value()).(mappings := ApplyAll(old(mappings), Flat(ms, MappingOps), KeyOfMapping))
    {
      for i := 0 to |ms|
        invariant Value() == old(Value()).(mappings := ApplyAll(old(mappings), Flat(ms[..i], MappingOps), KeyOfMapping))
      {
        FlatTurn(old(mappings), ms, i, MappingOps, KeyOfMapping);
        MergeMapping(ms[i]);
      }
      assert ms[..|ms|] == ms;
    }

    /** The published ports of `merge_devcontainer`: the identity of such a port is all of it. */
    method MergePublishPortList(ps: seq<PublishPort>)
      modifies this
      ensures Value() == old(Value()).(publishPorts := Union(old(publishPorts), ps))
    {
      for i := 0 to |ps|
        invariant Value() == old(Value()).(publishPorts := Union(old(publishPorts), ps[..i]))
      {
        assert ps[..i + 1][..i] == ps[..i];
        ReplaceItself(publishPorts, ps[i]);
        publishPorts := ReplaceByIdentity(publishPorts, ps[i], Itself);
      }
      assert ps[..|ps|] == ps;
    }

    /** `apply_layer`. */
    method ApplyLayer(s: Source)
      modifies this
      ensures Value() == Merge.ApplyLayer(old(Value()), s)
    {
      MergeFeatureList(s.layer.features);
      MergeDotfileList(s.layer.dotfiles);
      MergeMountList(s.layer.mounts);
      MergePortList(s.layer.ports, s.priority);
      MergeForwardPortList(s.layer.forwardPorts, s.priority);
      ApplyConcat(old(ports), Flat(s.layer.ports, PortOpsAt(s.priority)),
                  Flat(s.layer.forwardPorts, ForwardOpsAt(s.priority)), KeyOfPort);
      MergeMappingList(s.layer.mappings);
      MergePublishPortList(s.layer.publishPorts);
      portAttributes := portAttributes + s.layer.portAttributes;
      capAdd := AppendUnique(capAdd, s.layer.capAdd);
      securityOpt := AppendUnique(securityOpt, s.layer.securityOpt);
    }

    method ApplyLayers(sources: seq<Source>)
      requires Value() == EMPTY
      modifies this
      ensures Value() == MergeAll(sources)
    {
      for i := 0 to |sources|
        invariant Value() == MergeAll(sources[..i])
      {
        assert sources[..i + 1][..i] == sources[..i];
        ApplyLayer(sources[i]);
      }
      assert sources[..|sources|] == sources;
    }

    /** `apply_forward_port_attributes`. */
    method ApplyForwardPortAttributes()
      modifies this
      ensures Value() == old(Value()).(ports := AllWithAttributes(old(portAttributes), old(ports)))
    {
      for i := 0 to |ports|
        invariant |ports| == |old(ports)| && Value() == old(Value()).(ports := ports)
        invariant forall j :: 0 <= j < i ==> ports[j] == WithAttributes(portAttributes, old(ports)[j])
        invariant forall j :: i <= j < |ports| ==> ports[j] == old(ports)[j]
      {
        ports := ports[i := WithAttributes(portAttributes, ports[i])];
      }
      assert ports == AllWithAttributes(portAttributes, old(ports));
    }

    /** `into_resolved`: the attributes of forwarded ports, then the two stable sorts. */
    method IntoResolved()
      modifies this
      ensures Value() == Resolved(old(Value()))
    {
      ApplyForwardPortAttributes();
      ports := SortBy(ports, PriorityLe());
      mappings := SortBy(mappings, MappingLe());
    }
  }

  /** One turn of a loop over a layer's list. */
  lemma FlatTurn<A, T, K>(start: seq<T>, xs: seq<A>, i: nat, f: A -> seq<Op<T, K>>, key: T -> K)
    requires i < |xs|
    ensures ApplyAll(start, Flat(xs[..i + 1], f), key)
            == ApplyAll(ApplyAll(start, Flat(xs[..i], f), key), f(xs[i]), key)
  {
    assert xs[..i + 1][..i] == xs[..i];
    ApplyConcat(start, Flat(xs[..i], f), f(xs[i]), key);
  }

  /** `resolve_config`: the layers in their fixed order, then the final pass. */
  method ResolveConfig(input: MergeInput) returns (r: Merged)
    ensures r == Resolved(MergeAll(Sources(input)))
  {
    var accumulator := new Accumulator();
    accumulator.ApplyLayers(Sources(input));
    accumulator.IntoResolved();
    r := accumulator.Value();
  }
}
