/**
 What equal configuration hashes mean: two inputs have the same hash exactly when everything the hash is
 meant to see is the same.
 */
module HashMeaning {
  import opened Text
  import opened Canonical
  import opened ComposeModel
  import opened ConfigHash
  import opened ConfigTypes
  import opened HashShapes
  import opened CommandSections
  import opened StableSort

  // ----- every section writer is faithful -----

  lemma ListsFaithful()
    ensures Faithful(StrsDoc) && Faithful(StrMapDoc) && Faithful(ProbeDoc)
  {
    BasicsFaithful();
    forall a, b | StrsDoc(a) == StrsDoc(b) ensures a == b { EachFaithful(StrDoc, a, b); }
    forall a, b | StrMapDoc(a) == StrMapDoc(b) ensures a == b { EntriesFaithful(StrDoc, a, b); }
    forall a, b | ProbeDoc(a) == ProbeDoc(b) ensures a == b { assert |ProbeDoc(a).text| == |ProbeDoc(b).text|; }
  }

  lemma FeatureFaithful()
    ensures Faithful(FeatureDoc)
  {
    BasicsFaithful();
    forall a, b | FeatureDoc(a) == FeatureDoc(b) ensures a == b {
      var p, q := FeatureDoc(a).fields, FeatureDoc(b).fields;
      assert p[0] == q[0] && p[1] == q[1] && p[2] == q[2];
      EntriesFaithful(TomlDoc, a.options, b.options);
    }
  }

  lemma DotfileFaithful()
    ensures Faithful(DotfileDoc)
  {
    forall a, b | DotfileDoc(a) == DotfileDoc(b) ensures a == b {
      var p, q := DotfileDoc(a).fields, DotfileDoc(b).fields;
      assert p[0] == q[0] && p[1] == q[1] && p[2] == q[2] && p[3] == q[3] && p[4] == q[4] && p[5] == q[5];
      assert |ConflictName(a.onConflict)| == |ConflictName(b.onConflict)|;
      assert |OriginName(a.origin)| == |OriginName(b.origin)|;
    }
  }

  lemma DotfileEntryFaithful()
    ensures Faithful(DotfileEntryDoc)
  {
    DotfileFaithful();
    forall a, b | DotfileEntryDoc(a) == DotfileEntryDoc(b) ensures a == b {
      var p, q := DotfileEntryDoc(a).fields, DotfileEntryDoc(b).fields;
      assert |p| == |q|;
      if a.Disabled? {
        assert p[0] == q[0] && p[2] == q[2];
        assert |OriginName(a.origin)| == |OriginName(b.origin)|;
      }
    }
  }

  lemma MappingFaithful()
    ensures Faithful(MappingDoc)
  {
    BasicsFaithful();
    forall a, b | MappingDoc(a) == MappingDoc(b) ensures a == b {
      var p, q := MappingDoc(a).fields, MappingDoc(b).fields;
      assert p[0] == q[0] && p[1] == q[1] && p[2] == q[2] && p[3] == q[3] && p[4] == q[4];
      MaybeFaithful(StrDoc, a.hostIp, b.hostIp);
      DecInjective(a.target, b.target);
      DecInjective(a.host, b.host);
      assert ProtocolName(a.protocol)[0] == ProtocolName(b.protocol)[0];
    }
  }

  lemma EndpointFaithful()
    ensures Faithful(EndpointDoc)
  {
    BasicsFaithful();
    forall a, b | EndpointDoc(a) == EndpointDoc(b) ensures a == b {
      var p, q := EndpointDoc(a).fields, EndpointDoc(b).fields;
      assert p[0] == q[0] && p[1] == q[1] && p[2] == q[2];
    }
  }

  lemma PublishPortFaithful()
    ensures Faithful(PublishPortDoc)
  {
    forall p: u16, q: u16 | PortDoc(p) == PortDoc(q) ensures p == q { DecInjective(p, q); }
    BasicsFaithful();
    forall a, b | PublishPortDoc(a) == PublishPortDoc(b) ensures a == b {
      var p, q := PublishPortDoc(a).fields, PublishPortDoc(b).fields;
      assert p[0] == q[0] && p[1] == q[1] && p[2] == q[2] && p[3] == q[3];
      MaybeFaithful(PortDoc, a.host, b.host);
      MaybeFaithful(StrDoc, a.hostIp, b.hostIp);
      DecInjective(a.container, b.container);
      assert ProtocolName(a.protocol)[0] == ProtocolName(b.protocol)[0];
    }
  }

  lemma FeatureLockFaithful()
    ensures Faithful(FeatureLockDoc)
  {
    BasicsFaithful();
    forall a, b | FeatureLockDoc(a) == FeatureLockDoc(b) ensures a == b {
      var p, q := FeatureLockDoc(a).fields, FeatureLockDoc(b).fields;
      assert p[0] == q[0] && p[1] == q[1];
    }
  }

  lemma ComposeFileFaithful()
    ensures Faithful(ComposeFileDoc)
  {
    BasicsFaithful();
    forall a, b | ComposeFileDoc(a) == ComposeFileDoc(b) ensures a == b {
      var p, q := ComposeFileDoc(a).fields, ComposeFileDoc(b).fields;
      assert p[0] == q[0] && p[1] == q[1];
    }
  }

  lemma OverrideFaithful()
    ensures Faithful(OverrideDoc)
  {
    BasicsFaithful();
    forall a, b | OverrideDoc(a) == OverrideDoc(b) ensures a == b {
      var p, q := OverrideDoc(a).fields, OverrideDoc(b).fields;
      assert p[0] == q[0] && p[1] == q[1];
    }
  }

  lemma BuildFaithful()
    ensures Faithful(BuildDoc)
  {
    BasicsFaithful();
    forall a, b | BuildDoc(a) == BuildDoc(b) ensures a == b {
      var p, q := BuildDoc(a).fields, BuildDoc(b).fields;
      assert p[0] == q[0] && p[1] == q[1] && p[2] == q[2] && p[3] == q[3] && p[4] == q[4] && p[5] == q[5];
      MaybeFaithful(StrDoc, a.dockerfilePath, b.dockerfilePath);
      MaybeFaithful(StrDoc, a.dockerfileContentHash, b.dockerfileContentHash);
      MaybeFaithful(StrDoc, a.contextPath, b.contextPath);
      MaybeFaithful(StrDoc, a.dockerignorePath, b.dockerignorePath);
      MaybeFaithful(StrDoc, a.dockerignoreContentHash, b.dockerignoreContentHash);
      MaybeFaithful(StrDoc, a.contextContentHash, b.contextContentHash);
    }
  }

  lemma BindOptionsFaithful()
    ensures Faithful(BindOptionsDoc)
  {
    BasicsFaithful();
    forall a, b | BindOptionsDoc(a) == BindOptionsDoc(b) ensures a == b {
      var p, q := BindOptionsDoc(a).fields, BindOptionsDoc(b).fields;
      assert p[0] == q[0] && p[1] == q[1] && p[2] == q[2] && p[3] == q[3] && p[4] == q[4];
      MaybeFaithful(StrDoc, a.propagation, b.propagation);
      MaybeFaithful(BoolDoc, a.nonRecursive, b.nonRecursive);
      MaybeFaithful(BoolDoc, a.createMountpoint, b.createMountpoint);
      MaybeFaithful(BoolDoc, a.readOnlyNonRecursive, b.readOnlyNonRecursive);
      MaybeFaithful(BoolDoc, a.readOnlyForceRecursive, b.readOnlyForceRecursive);
    }
  }

  lemma DriverConfigFaithful()
    ensures Faithful(DriverConfigDoc)
  {
    BasicsFaithful();
    ListsFaithful();
    forall a, b | DriverConfigDoc(a) == DriverConfigDoc(b) ensures a == b {
      var p, q := DriverConfigDoc(a).fields, DriverConfigDoc(b).fields;
      assert p[0] == q[0] && p[1] == q[1];
      MaybeFaithful(StrDoc, a.name, b.name);
      MaybeFaithful(StrMapDoc, a.options, b.options);
    }
  }

  lemma VolumeOptionsFaithful()
    ensures Faithful(VolumeOptionsDoc)
  {
    BasicsFaithful();
    ListsFaithful();
    DriverConfigFaithful();
    forall a, b | VolumeOptionsDoc(a) == VolumeOptionsDoc(b) ensures a == b {
      var p, q := VolumeOptionsDoc(a).fields, VolumeOptionsDoc(b).fields;
      assert p[0] == q[0] && p[1] == q[1] && p[2] == q[2] && p[3] == q[3];
      MaybeFaithful(BoolDoc, a.noCopy, b.noCopy);
      MaybeFaithful(StrMapDoc, a.labels, b.labels);
      MaybeFaithful(DriverConfigDoc, a.driverConfig, b.driverConfig);
      MaybeFaithful(StrDoc, a.subpath, b.subpath);
    }
  }

  lemma ResolvedMountFaithful()
    ensures Faithful(ResolvedMountDoc)
  {
    BasicsFaithful();
    BindOptionsFaithful();
    VolumeOptionsFaithful();
    forall a, b | ResolvedMountDoc(a) == ResolvedMountDoc(b) ensures a == b {
      var p, q := ResolvedMountDoc(a).fields, ResolvedMountDoc(b).fields;
      assert p[0] == q[0] && p[1] == q[1] && p[2] == q[2] && p[3] == q[3] && p[4] == q[4] && p[5] == q[5]
             && p[6] == q[6];
      MaybeFaithful(StrDoc, a.source, b.source);
      MaybeFaithful(StrDoc, a.consistency, b.consistency);
      MaybeFaithful(BindOptionsDoc, a.bindOptions, b.bindOptions);
      MaybeFaithful(VolumeOptionsDoc, a.volumeOptions, b.volumeOptions);
      assert MountTypeName(a.mountType)[0] == MountTypeName(b.mountType)[0];
    }
  }

  lemma StartupFaithful()
    ensures Faithful(StartupDoc)
  {
    BasicsFaithful();
    forall a, b | StartupDoc(a) == StartupDoc(b) ensures a == b {
      var p, q := StartupDoc(a).fields, StartupDoc(b).fields;
      assert p[0] == q[0] && p[1] == q[1];
      EachFaithful(StrDoc, a.entrypoint, b.entrypoint);
      EachFaithful(StrDoc, a.command, b.command);
    }
  }

  lemma UidGidFaithful()
    ensures Faithful(UidGidDoc)
  {
    BasicsFaithful();
    forall a, b | UidGidDoc(a) == UidGidDoc(b) ensures a == b {
      var p, q := UidGidDoc(a).fields, UidGidDoc(b).fields;
      assert p[0] == q[0] && p[1] == q[1] && p[2] == q[2] && p[3] == q[3] && p[4] == q[4];
      MaybeFaithful(StrDoc, a.targetKind, b.targetKind);
      MaybeFaithful(StrDoc, a.targetUser, b.targetUser);
      DecInjective(a.hostUid, b.hostUid);
      DecInjective(a.hostGid, b.hostGid);
      assert SyncStateName(a.state)[0] == SyncStateName(b.state)[0];
      if a.state.Noop? { StripPrefix("noop:", a.state.reason, b.state.reason); }
    }
  }

  lemma DevcontainerMountFaithful()
    ensures Faithful(DevcontainerMountDoc)
  {
    BasicsFaithful();
    forall a, b | DevcontainerMountDoc(a) == DevcontainerMountDoc(b) ensures a == b {
      var p, q := DevcontainerMountDoc(a).fields, DevcontainerMountDoc(b).fields;
      assert p[0] == q[0];
      if a.MountObject? { EntriesFaithful(JsonDoc, a.values, b.values); }
    }
  }

  lemma RunArgFaithful()
    ensures Faithful(RunArgDoc)
  {
    forall a, b | RunArgDoc(a) == RunArgDoc(b) ensures a == b {
      assert |RunArgDoc(a).name| == |RunArgDoc(b).name|;
      var p, q := RunArgDoc(a).fields, RunArgDoc(b).fields;
      assert p[0] == q[0];
      if a.Passthrough? { assert p[1] == q[1]; }
    }
  }

  // ----- secrets -----

  lemma MarkerFaithful(sha: string -> string, kind: string, version: string, prefix: string, k: string, v: string,
                       w: string)
    requires Injective(sha)
    requires SecretMarker(sha, kind, version, prefix, k, v) == SecretMarker(sha, kind, version, prefix, k, w)
    ensures v == w
  {
    var d := Object(kind, [Field("version", Str(version)), Field("key", Str(k)), Field("value", Str(v))]);
    var e := Object(kind, [Field("version", Str(version)), Field("key", Str(k)), Field("value", Str(w))]);
    StripPrefix(prefix, sha(Enc(d)) + ">", sha(Enc(e)) + ">");
    var x, y := sha(Enc(d)) + ">", sha(Enc(e)) + ">";
    assert sha(Enc(d)) == x[..|x| - 1] == y[..|y| - 1] == sha(Enc(e));
    assert Enc(d) + "" == Enc(d) && Enc(e) + "" == Enc(e);
    EncUnique(d, e, "", "");
    assert d.fields[2] == e.fields[2];
  }

  ghost predicate SameKeys(s: seq<string>, t: seq<string>) {
    forall k :: k in s <==> k in t
  }

  lemma ContainerEnvFaithful(sha: string -> string, a: map<string, string>, b: map<string, string>, s: seq<string>,
                             t: seq<string>)
    requires Injective(sha) && SameKeys(s, t)
    ensures ContainerEnvForHash(sha, a, s) == ContainerEnvForHash(sha, b, t) <==> a == b
  {
    var x, y := ContainerEnvForHash(sha, a, s), ContainerEnvForHash(sha, b, t);
    if x == y {
      assert a.Keys == x.Keys == y.Keys == b.Keys;
      forall k | k in a ensures a[k] == b[k] {
        assert x[k] == y[k];
        if k in s {
          MarkerFaithful(sha, "LocalEnvDerivedContainerEnvDigest", "decune-container-env-digest-v1",
                         "<localEnv-derived-value-sha256:", k, a[k], b[k]);
        }
      }
    }
  }

  lemma BuildArgsFaithful(sha: string -> string, a: map<string, string>, b: map<string, string>, s: seq<string>,
                          t: seq<string>)
    requires Injective(sha) && SameKeys(s, t)
    ensures BuildArgsForHash(sha, a, s) == BuildArgsForHash(sha, b, t) <==> a == b
  {
    var x, y := BuildArgsForHash(sha, a, s), BuildArgsForHash(sha, b, t);
    if x == y {
      assert a.Keys == x.Keys == y.Keys == b.Keys;
      forall k | k in a ensures a[k] == b[k] {
        assert x[k] == y[k];
        if k in s {
          MarkerFaithful(sha, "LocalEnvDerivedBuildArgDigest", "decune-build-arg-digest-v1",
                         "<localEnv-derived-build-arg-sha256:", k, a[k], b[k]);
        }
      }
    }
  }

  /** Why the sensitive keys must agree: a plain value may spell out the marker of a secret one. */
  lemma SecretListsMatter(sha: string -> string, k: string, s: seq<string>, t: seq<string>)
    requires k in s && k !in t
    ensures var secret, plain := map[k := ""], map[k := ContainerEnvMarker(sha, k, "")];
            secret != plain && ContainerEnvForHash(sha, secret, s) == ContainerEnvForHash(sha, plain, t)
  {
    assert |ContainerEnvMarker(sha, k, "")| > 0;
    assert map[k := ""][k] != map[k := ContainerEnvMarker(sha, k, "")][k];
  }

  lemma SecretArgListsMatter(sha: string -> string, k: string, s: seq<string>, t: seq<string>)
    requires k in s && k !in t
    ensures var secret, plain := map[k := ""], map[k := BuildArgMarker(sha, k, "")];
            secret != plain && BuildArgsForHash(sha, secret, s) == BuildArgsForHash(sha, plain, t)
  {
    assert |BuildArgMarker(sha, k, "")| > 0;
    assert map[k := ""][k] != map[k := BuildArgMarker(sha, k, "")][k];
  }

  /** The hashed form tells any two container environments apart exactly when the same keys are sensitive. */
  lemma ContainerEnvTellsExactly(sha: string -> string, s: seq<string>, t: seq<string>)
    requires Injective(sha)
    ensures (forall a, b :: ContainerEnvForHash(sha, a, s) == ContainerEnvForHash(sha, b, t) ==> a == b)
            <==> SameKeys(s, t)
  {
    if SameKeys(s, t) {
      forall a, b | ContainerEnvForHash(sha, a, s) == ContainerEnvForHash(sha, b, t) ensures a == b {
        ContainerEnvFaithful(sha, a, b, s, t);
      }
    } else {
      var k :| (k in s) != (k in t);
      if k in s { SecretListsMatter(sha, k, s, t); } else { SecretListsMatter(sha, k, t, s); }
    }
  }

  /** And so for build arguments. */
  lemma BuildArgsTellExactly(sha: string -> string, s: seq<string>, t: seq<string>)
    requires Injective(sha)
    ensures (forall a, b :: BuildArgsForHash(sha, a, s) == BuildArgsForHash(sha, b, t) ==> a == b) <==> SameKeys(s, t)
  {
    if SameKeys(s, t) {
      forall a, b | BuildArgsForHash(sha, a, s) == BuildArgsForHash(sha, b, t) ensures a == b {
        BuildArgsFaithful(sha, a, b, s, t);
      }
    } else {
      var k :| (k in s) != (k in t);
      if k in s { SecretArgListsMatter(sha, k, s, t); } else { SecretArgListsMatter(sha, k, t, s); }
    }
  }

  // ----- feature locks -----

  lemma LockOrder(a: FeatureLock, b: FeatureLock, c: FeatureLock)
    ensures a == b || LockLess(a, b) || LockLess(b, a)
    ensures !LockLess(a, a)
    ensures LockLess(a, b) && LockLess(b, c) ==> LockLess(a, c)
  {
    LessTrichotomy(a.featureId, b.featureId);
    LessTrichotomy(a.digest, b.digest);
    LessIrreflexive(a.featureId);
    LessIrreflexive(a.digest);
    if Less(a.featureId, b.featureId) && Less(b.featureId, c.featureId) {
      LessTransitive(a.featureId, b.featureId, c.featureId);
    }
    if Less(a.digest, b.digest) && Less(b.digest, c.digest) { LessTransitive(a.digest, b.digest, c.digest); }
  }

  lemma LockOrderIsTotal()
    ensures TotalPreorder(LockLe())
    ensures forall a, b :: LockLe()(a, b) && LockLe()(b, a) ==> a == b
  {
    forall a, b, c
      ensures LockLe()(a, b) || LockLe()(b, a)
      ensures LockLe()(a, b) && LockLe()(b, a) ==> a == b
      ensures LockLe()(a, b) && LockLe()(b, c) ==> LockLe()(a, c)
    {
      LockOrder(a, b, a);
      LockOrder(b, a, b);
      LockOrder(c, b, a);
      LockOrder(b, c, a);
      LockOrder(c, a, b);
    }
  }

  /** Feature locks are compared as a multiset: neither order nor position matters, every copy does. */
  lemma LocksCompareAsMultisets(a: seq<FeatureLock>, b: seq<FeatureLock>)
    ensures Each(SortedLocks(a), FeatureLockDoc) == Each(SortedLocks(b), FeatureLockDoc) <==> multiset(a) == multiset(b)
  {
    LockOrderIsTotal();
    SortSorts(a, LockLe());
    SortSorts(b, LockLe());
    if multiset(a) == multiset(b) {
      SortedDetermined(SortedLocks(a), SortedLocks(b), LockLe());
    }
    if Each(SortedLocks(a), FeatureLockDoc) == Each(SortedLocks(b), FeatureLockDoc) {
      FeatureLockFaithful();
      EachFaithful(FeatureLockDoc, SortedLocks(a), SortedLocks(b));
    }
  }

  // ----- sections with fields that are left out -----

  /** What the hash sees of the dotfiles: the enable/disable history if there is one, else the list. */
  function DotfileView(x: Config): seq<DotfileEntry> {
    if x.dotfileEntries == [] then seq(|x.dotfiles|, i requires 0 <= i < |x.dotfiles| => Enabled(x.dotfiles[i]))
    else x.dotfileEntries
  }

  lemma DotfilesFaithful(a: Config, b: Config)
    ensures DotfilesDoc(a) == DotfilesDoc(b) <==> DotfileView(a) == DotfileView(b)
  {
    DotfileEntryFaithful();
    forall x: Config ensures DotfilesDoc(x) == Each(DotfileView(x), DotfileEntryDoc) {
      assert Each(DotfileView(x), DotfileEntryDoc).items == DotfilesDoc(x).items;
    }
    if DotfilesDoc(a) == DotfilesDoc(b) {
      EachFaithful(DotfileEntryDoc, DotfileView(a), DotfileView(b));
    }
  }

  /** A configured mount without the configuration file it came from. */
  function MountView(m: ConfigMount): ConfigMount {
    m.(origin := Global)
  }

  function MountViews(ms: seq<ConfigMount>): seq<ConfigMount> {
    seq(|ms|, i requires 0 <= i < |ms| => MountView(ms[i]))
  }

  lemma ConfigMountFaithful(a: ConfigMount, b: ConfigMount)
    ensures ConfigMountDoc(a) == ConfigMountDoc(b) <==> MountView(a) == MountView(b)
  {
    BasicsFaithful();
    if ConfigMountDoc(a) == ConfigMountDoc(b) {
      var p, q := ConfigMountDoc(a).fields, ConfigMountDoc(b).fields;
      assert p[0] == q[0] && p[1] == q[1] && p[2] == q[2] && p[3] == q[3] && p[4] == q[4] && p[5] == q[5];
      MaybeFaithful(StrDoc, a.source, b.source);
      assert MountTypeName(a.mountType)[0] == MountTypeName(b.mountType)[0];
    }
  }

  lemma MountsFaithful(a: seq<ConfigMount>, b: seq<ConfigMount>)
    ensures Each(a, ConfigMountDoc) == Each(b, ConfigMountDoc) <==> MountViews(a) == MountViews(b)
  {
    var da, db := Each(a, ConfigMountDoc).items, Each(b, ConfigMountDoc).items;
    var va, vb := MountViews(a), MountViews(b);
    assert |da| == |a| == |va| && |db| == |b| == |vb|;
    forall i | 0 <= i < |a| && i < |b| ensures da[i] == db[i] <==> va[i] == vb[i] {
      ConfigMountFaithful(a[i], b[i]);
      assert da[i] == ConfigMountDoc(a[i]) && db[i] == ConfigMountDoc(b[i]);
    }
    assert (forall i :: 0 <= i < |da| && i < |db| ==> da[i] == db[i]) ==> (|da| == |db| ==> va == vb);
    assert (forall i :: 0 <= i < |va| && i < |vb| ==> va[i] == vb[i]) ==> (|da| == |db| ==> da == db);
  }

  /** Clone isolation that is switched off has no further settings. */
  function IsolationView(x: CloneIsolation): CloneIsolation {
    if x.enabled then x else CloneIsolation(false, false, None, None, false, false, [])
  }

  lemma IsolationFaithful(a: CloneIsolation, b: CloneIsolation)
    ensures CloneIsolationDoc(a) == CloneIsolationDoc(b) <==> IsolationView(a) == IsolationView(b)
  {
    if CloneIsolationDoc(a) == CloneIsolationDoc(b) {
      BasicsFaithful();
      EndpointFaithful();
      var p, q := CloneIsolationDoc(a).fields, CloneIsolationDoc(b).fields;
      assert p[0] == q[0];
      if a.enabled {
        assert p[1] == q[1] && p[2] == q[2] && p[3] == q[3];
        var n, m := p[1].value.fields, q[1].value.fields;
        assert n[0] == m[0] && n[1] == m[1] && n[2] == m[2];
        MaybeFaithful(StrDoc, a.subnetPool, b.subnetPool);
        MaybeFaithful(NatDoc, a.subnetPrefix, b.subnetPrefix);
        var r, t := p[2].value.fields, q[2].value.fields;
        assert r[0] == t[0] && r[1] == t[1];
        EachFaithful(EndpointDoc, a.endpoints, b.endpoints);
      }
    }
  }

  lemma ComposeFaithful(a: Config, b: Config)
    ensures ComposeDoc(a) == ComposeDoc(b)
            <==> a.mappings == b.mappings && IsolationView(a.cloneIsolation) == IsolationView(b.cloneIsolation)
  {
    IsolationFaithful(a.cloneIsolation, b.cloneIsolation);
    if ComposeDoc(a) == ComposeDoc(b) {
      var x := if a.mappings == [] then None else Some(Each(a.mappings, MappingDoc));
      var y := if b.mappings == [] then None else Some(Each(b.mappings, MappingDoc));
      var r := [Field("clone_isolation", CloneIsolationDoc(a.cloneIsolation))];
      var s := [Field("clone_isolation", CloneIsolationDoc(b.cloneIsolation))];
      assert "clone_isolation"[0] != "published_port_mappings"[0];
      OptionalUnique("published_port_mappings", x, y, r, s);
      assert r[0] == s[0];
      MappingFaithful();
      if x.Some? { EachFaithful(MappingDoc, a.mappings, b.mappings); }
    }
  }

  lemma SourceFaithful(sha: string -> string, a: Source, b: Source, s: seq<string>, t: seq<string>)
    requires Injective(sha) && SameKeys(s, t)
    ensures SourceDoc(sha, a, s) == SourceDoc(sha, b, t) <==> a == b
  {
    if a.Dockerfile? && b.Dockerfile? { BuildArgsFaithful(sha, a.args, b.args, s, t); }
    if SourceDoc(sha, a, s) == SourceDoc(sha, b, t) {
      BasicsFaithful();
      ListsFaithful();
      assert |SourceDoc(sha, a, s).name| == |SourceDoc(sha, b, t).name|;
      var p, q := SourceDoc(sha, a, s).fields, SourceDoc(sha, b, t).fields;
      assert p[0] == q[0];
      if a.Dockerfile? {
        assert p[1] == q[1] && p[2] == q[2] && p[3] == q[3] && p[4] == q[4] && p[5] == q[5];
        MaybeFaithful(StrDoc, a.context, b.context);
        EntriesFaithful(StrDoc, BuildArgsForHash(sha, a.args, s), BuildArgsForHash(sha, b.args, t));
        EachFaithful(StrDoc, a.options, b.options);
        MaybeFaithful(StrDoc, a.target, b.target);
        EachFaithful(StrDoc, a.cacheFrom, b.cacheFrom);
      } else if a.Compose? {
        assert p[1] == q[1] && p[2] == q[2];
        EachFaithful(StrDoc, a.files, b.files);
        MaybeFaithful(StrsDoc, a.runServices, b.runServices);
      }
    }
  }

  lemma OptionalSourceFaithful(sha: string -> string, a: Option<Source>, b: Option<Source>, s: seq<string>,
                               t: seq<string>)
    requires Injective(sha) && SameKeys(s, t)
    ensures OptionalSourceDoc(sha, a, s) == OptionalSourceDoc(sha, b, t) <==> a == b
  {
    if a.Some? && b.Some? { SourceFaithful(sha, a.value, b.value, s, t); }
  }

  /** What the hash sees of the devcontainer data: everything but the port attributes. */
  ghost predicate SameDevcontainer(a: Devcontainer, b: Devcontainer) {
    && Written(a) == Written(b)
    && SameOptionalLifecycle(a.lifecycle, b.lifecycle)
  }

  /** The devcontainer data without the port attributes and the lifecycle. */
  function Written(x: Devcontainer): Devcontainer {
    x.(portAttributes := map[], otherPortsAttributes := None, lifecycle := None)
  }

  lemma DevcontainerFaithful(sha: string -> string, a: Devcontainer, b: Devcontainer,
                             es: seq<string>, et: seq<string>, bs: seq<string>, bt: seq<string>)
    requires Injective(sha) && SameKeys(es, et) && SameKeys(bs, bt)
    ensures DevcontainerFields(sha, a, es, bs) == DevcontainerFields(sha, b, et, bt) <==> SameDevcontainer(a, b)
  {
    SameParts(WorkspaceFields(sha, a, es, bs), WorkspaceFields(sha, b, et, bt),
              UserFields(a) + RunFields(a), UserFields(b) + RunFields(b));
    SameParts(UserFields(a), UserFields(b), RunFields(a), RunFields(b));
    WorkspaceFaithful(sha, a, b, es, et, bs, bt);
    UserFaithful(a, b);
    RunFaithful(a, b);
  }

  lemma SameParts(p: seq<Field>, q: seq<Field>, r: seq<Field>, s: seq<Field>)
    requires |p| == |q|
    ensures p + r == q + s <==> p == q && r == s
  {
    if p + r == q + s {
      assert p == (p + r)[..|p|] == (q + s)[..|q|] == q;
      assert r == (p + r)[|p|..] == (q + s)[|q|..] == s;
    }
  }

  lemma WorkspaceFaithful(sha: string -> string, a: Devcontainer, b: Devcontainer,
                          es: seq<string>, et: seq<string>, bs: seq<string>, bt: seq<string>)
    requires Injective(sha) && SameKeys(es, et) && SameKeys(bs, bt)
    ensures WorkspaceFields(sha, a, es, bs) == WorkspaceFields(sha, b, et, bt)
            <==> && a.source == b.source && a.featureOrder == b.featureOrder && a.mounts == b.mounts
                 && a.workspaceMount == b.workspaceMount && a.workspaceFolder == b.workspaceFolder
                 && a.containerEnv == b.containerEnv && a.remoteEnv == b.remoteEnv
  {
    ContainerEnvFaithful(sha, a.containerEnv, b.containerEnv, es, et);
    OptionalSourceFaithful(sha, a.source, b.source, bs, bt);
    var p, q := WorkspaceFields(sha, a, es, bs), WorkspaceFields(sha, b, et, bt);
    if p == q {
      assert p[0] == q[0] && p[1] == q[1] && p[2] == q[2] && p[3] == q[3] && p[4] == q[4] && p[5] == q[5]
             && p[6] == q[6];
      PlainWorkspaceFaithful(a, b);
      BasicsFaithful();
      EntriesFaithful(StrDoc,
                      ContainerEnvForHash(sha, a.containerEnv, es), ContainerEnvForHash(sha, b.containerEnv, et));
    }
  }

  lemma PlainWorkspaceFaithful(a: Devcontainer, b: Devcontainer)
    requires StrsDoc(a.featureOrder) == StrsDoc(b.featureOrder)
    requires Each(a.mounts, DevcontainerMountDoc) == Each(b.mounts, DevcontainerMountDoc)
    requires Maybe(a.workspaceMount, StrDoc) == Maybe(b.workspaceMount, StrDoc)
    requires Maybe(a.workspaceFolder, StrDoc) == Maybe(b.workspaceFolder, StrDoc)
    requires StrMapDoc(a.remoteEnv) == StrMapDoc(b.remoteEnv)
    ensures a.featureOrder == b.featureOrder && a.mounts == b.mounts && a.workspaceMount == b.workspaceMount
    ensures a.workspaceFolder == b.workspaceFolder && a.remoteEnv == b.remoteEnv
  {
    BasicsFaithful();
    EachFaithful(StrDoc, a.featureOrder, b.featureOrder);
    DevcontainerMountFaithful();
    EachFaithful(DevcontainerMountDoc, a.mounts, b.mounts);
    MaybeFaithful(StrDoc, a.workspaceMount, b.workspaceMount);
    MaybeFaithful(StrDoc, a.workspaceFolder, b.workspaceFolder);
    EntriesFaithful(StrDoc, a.remoteEnv, b.remoteEnv);
  }

  lemma UserFaithful(a: Devcontainer, b: Devcontainer)
    ensures UserFields(a) == UserFields(b)
            <==> && a.remoteUser == b.remoteUser && a.containerUser == b.containerUser
                 && a.updateRemoteUserUid == b.updateRemoteUserUid && a.overrideCommand == b.overrideCommand
                 && a.shutdownAction == b.shutdownAction && a.userEnvProbe == b.userEnvProbe
                 && a.publishPorts == b.publishPorts
  {
    var p, q := UserFields(a), UserFields(b);
    if p == q {
      assert p[0] == q[0] && p[1] == q[1] && p[2] == q[2] && p[3] == q[3] && p[4] == q[4] && p[5] == q[5]
             && p[6] == q[6];
      BasicsFaithful();
      ListsFaithful();
      MaybeFaithful(StrDoc, a.remoteUser, b.remoteUser);
      MaybeFaithful(StrDoc, a.containerUser, b.containerUser);
      assert |ShutdownActionName(a.shutdownAction)| == |ShutdownActionName(b.shutdownAction)|;
      MaybeFaithful(ProbeDoc, a.userEnvProbe, b.userEnvProbe);
      PublishPortFaithful();
      EachFaithful(PublishPortDoc, a.publishPorts, b.publishPorts);
    }
  }

  lemma RunFaithful(a: Devcontainer, b: Devcontainer)
    ensures RunFields(a) == RunFields(b)
            <==> && a.runArgs == b.runArgs && a.init == b.init && a.privileged == b.privileged
                 && a.capAdd == b.capAdd && a.securityOpt == b.securityOpt && a.entrypoints == b.entrypoints
                 && SameOptionalLifecycle(a.lifecycle, b.lifecycle)
  {
    OptionalLifecycleFaithful(a.lifecycle, b.lifecycle);
    var p, q := RunFields(a), RunFields(b);
    if p == q {
      assert p[0] == q[0] && p[1] == q[1] && p[2] == q[2] && p[3] == q[3] && p[4] == q[4] && p[5] == q[5]
             && p[6] == q[6];
      BasicsFaithful();
      RunArgFaithful();
      EachFaithful(RunArgDoc, a.runArgs, b.runArgs);
      MaybeFaithful(BoolDoc, a.init, b.init);
      MaybeFaithful(BoolDoc, a.privileged, b.privileged);
      EachFaithful(StrDoc, a.capAdd, b.capAdd);
      EachFaithful(StrDoc, a.securityOpt, b.securityOpt);
      EachFaithful(StrDoc, a.entrypoints, b.entrypoints);
    }
  }

  // ----- the whole preimage -----

  /** The part of the configuration that decides whether a container may be reused. */
  ghost predicate SameConfig(a: Config, b: Config) {
    && a.shell == b.shell && a.features == b.features
    && DotfileView(a) == DotfileView(b)
    && MountViews(a.mounts) == MountViews(b.mounts)
    && a.mappings == b.mappings && IsolationView(a.cloneIsolation) == IsolationView(b.cloneIsolation)
    && SameDevcontainer(a.devcontainer, b.devcontainer) && a.credentials == b.credentials && a.hooks == b.hooks
  }

  /** Everything the hash is meant to see is the same. */
  ghost predicate SameHashInputs(a: HashInput, b: HashInput) {
    && SameConfig(a.config, b.config)
    && multiset(a.featureLocks) == multiset(b.featureLocks)
    && a.cliFlags == b.cliFlags && a.internalVersions == b.internalVersions && a.build == b.build
    && a.composeFiles == b.composeFiles && a.generatedOverride == b.generatedOverride
    && a.composeModel == b.composeModel && a.resolvedMounts == b.resolvedMounts
    && a.startupCommand == b.startupCommand && a.uidGidSync == b.uidGidSync
  }

  ghost predicate SameSecretKeys(a: HashInput, b: HashInput) {
    && SameKeys(a.sensitiveContainerEnvKeys, b.sensitiveContainerEnvKeys)
    && SameKeys(a.sensitiveBuildArgKeys, b.sensitiveBuildArgKeys)
  }

  lemma ConfigFaithful(sha: string -> string, a: HashInput, b: HashInput)
    requires Injective(sha) && SameSecretKeys(a, b)
    ensures ConfigDoc(sha, a) == ConfigDoc(sha, b) <==> SameConfig(a.config, b.config)
  {
    DotfilesFaithful(a.config, b.config);
    MountsFaithful(a.config.mounts, b.config.mounts);
    ComposeFaithful(a.config, b.config);
    DevcontainerFaithful(sha, a.config.devcontainer, b.config.devcontainer,
                         a.sensitiveContainerEnvKeys, b.sensitiveContainerEnvKeys,
                         a.sensitiveBuildArgKeys, b.sensitiveBuildArgKeys);
    PlainSectionsFaithful(a.config, b.config);
    ConfigFieldsUnique(
      Maybe(a.config.shell, StrDoc), Each(a.config.features, FeatureDoc), DotfilesDoc(a.config),
      Each(a.config.mounts, ConfigMountDoc),
      Maybe(b.config.shell, StrDoc), Each(b.config.features, FeatureDoc), DotfilesDoc(b.config),
      Each(b.config.mounts, ConfigMountDoc),
      ComposeDoc(a.config),
      DevcontainerDoc(sha, a.config.devcontainer, a.sensitiveContainerEnvKeys, a.sensitiveBuildArgKeys),
      CredentialsDoc(a.config.credentials), HooksDoc(a.config.hooks),
      ComposeDoc(b.config),
      DevcontainerDoc(sha, b.config.devcontainer, b.sensitiveContainerEnvKeys, b.sensitiveBuildArgKeys),
      CredentialsDoc(b.config.credentials), HooksDoc(b.config.hooks));
  }

  lemma FourUnique(k: string, a: Doc, l: string, b: Doc, m: string, c: Doc, n: string, d: Doc,
                   w: Doc, x: Doc, y: Doc, z: Doc)
    ensures Four(k, a, l, b, m, c, n, d) == Four(k, w, l, x, m, y, n, z) <==> a == w && b == x && c == y && d == z
  {
    var p, q := Four(k, a, l, b, m, c, n, d), Four(k, w, l, x, m, y, n, z);
    assert p[0] == Field(k, a) && p[1] == Field(l, b) && p[2] == Field(m, c) && p[3] == Field(n, d);
    assert q[0] == Field(k, w) && q[1] == Field(l, x) && q[2] == Field(m, y) && q[3] == Field(n, z);
  }

  lemma ConfigFieldsUnique(a: Doc, b: Doc, c: Doc, d: Doc, w: Doc, x: Doc, y: Doc, z: Doc,
                           e: Doc, f: Doc, g: Doc, h: Doc, r: Doc, s: Doc, t: Doc, u: Doc)
    ensures Four("shell", a, "features", b, "dotfiles", c, "mounts", d)
            + Four("compose", e, "devcontainer", f, "credentials", g, "hooks", h)
            == Four("shell", w, "features", x, "dotfiles", y, "mounts", z)
               + Four("compose", r, "devcontainer", s, "credentials", t, "hooks", u)
            <==> (a == w && b == x && c == y && d == z) && (e == r && f == s && g == t && h == u)
  {
    FourUnique("shell", a, "features", b, "dotfiles", c, "mounts", d, w, x, y, z);
    FourUnique("compose", e, "devcontainer", f, "credentials", g, "hooks", h, r, s, t, u);
    SameParts(Four("shell", a, "features", b, "dotfiles", c, "mounts", d),
              Four("shell", w, "features", x, "dotfiles", y, "mounts", z),
              Four("compose", e, "devcontainer", f, "credentials", g, "hooks", h),
              Four("compose", r, "devcontainer", s, "credentials", t, "hooks", u));
  }

  lemma PlainSectionsFaithful(a: Config, b: Config)
    ensures Maybe(a.shell, StrDoc) == Maybe(b.shell, StrDoc) <==> a.shell == b.shell
    ensures Each(a.features, FeatureDoc) == Each(b.features, FeatureDoc) <==> a.features == b.features
    ensures CredentialsDoc(a.credentials) == CredentialsDoc(b.credentials) <==> a.credentials == b.credentials
    ensures HooksDoc(a.hooks) == HooksDoc(b.hooks) <==> a.hooks == b.hooks
  {
    BasicsFaithful();
    if Maybe(a.shell, StrDoc) == Maybe(b.shell, StrDoc) { MaybeFaithful(StrDoc, a.shell, b.shell); }
    FeatureFaithful();
    if Each(a.features, FeatureDoc) == Each(b.features, FeatureDoc) {
      EachFaithful(FeatureDoc, a.features, b.features);
    }
    CredentialsFaithful();
    HooksFaithful();
  }

  lemma HeadFaithful(sha: string -> string, a: HashInput, b: HashInput)
    requires Injective(sha) && SameSecretKeys(a, b)
    ensures HeadFields(sha, a) == HeadFields(sha, b)
            <==> SameConfig(a.config, b.config) && multiset(a.featureLocks) == multiset(b.featureLocks)
                 && a.cliFlags == b.cliFlags && a.internalVersions == b.internalVersions && a.build == b.build
  {
    ConfigFaithful(sha, a, b);
    HeadAroundFaithful(ConfigDoc(sha, a), ConfigDoc(sha, b), a, b);
  }

  lemma HeadAroundFaithful(c: Doc, d: Doc, a: HashInput, b: HashInput)
    ensures HeadAround(c, a) == HeadAround(d, b)
            <==> c == d && multiset(a.featureLocks) == multiset(b.featureLocks)
                 && a.cliFlags == b.cliFlags && a.internalVersions == b.internalVersions && a.build == b.build
  {
    LocksCompareAsMultisets(a.featureLocks, b.featureLocks);
    var p, q := HeadAround(c, a), HeadAround(d, b);
    if p == q {
      assert p[1] == q[1] && p[2] == q[2] && p[3] == q[3] && p[4] == q[4] && p[5] == q[5];
      PlainHeadFaithful(a, b);
    }
  }

  lemma PlainHeadFaithful(a: HashInput, b: HashInput)
    requires Entries(a.cliFlags, TomlDoc) == Entries(b.cliFlags, TomlDoc)
    requires StrMapDoc(a.internalVersions) == StrMapDoc(b.internalVersions)
    requires Maybe(a.build, BuildDoc) == Maybe(b.build, BuildDoc)
    ensures a.cliFlags == b.cliFlags && a.internalVersions == b.internalVersions && a.build == b.build
  {
    BasicsFaithful();
    EntriesFaithful(TomlDoc, a.cliFlags, b.cliFlags);
    EntriesFaithful(StrDoc, a.internalVersions, b.internalVersions);
    BuildFaithful();
    MaybeFaithful(BuildDoc, a.build, b.build);
  }

  lemma TailFaithful(a: HashInput, b: HashInput)
    requires TailFields(a) == TailFields(b)
    ensures a.resolvedMounts == b.resolvedMounts && a.startupCommand == b.startupCommand && a.uidGidSync == b.uidGidSync
  {
    var p, q := TailFields(a), TailFields(b);
    assert p[0] == q[0] && p[1] == q[1] && p[2] == q[2];
    ResolvedMountFaithful();
    EachFaithful(ResolvedMountDoc, a.resolvedMounts, b.resolvedMounts);
    StartupFaithful();
    MaybeFaithful(StartupDoc, a.startupCommand, b.startupCommand);
    UidGidFaithful();
    MaybeFaithful(UidGidDoc, a.uidGidSync, b.uidGidSync);
  }

  /** The fields after `build`, three of which may be missing. */
  function OptionalFields(sha: string -> string, input: HashInput): seq<Field> {
    ComposeFilesField(input) + (OverrideField(input) + (ModelField(sha, input) + TailFields(input)))
  }

  lemma DistinctNames()
    ensures "compose_files" != "compose_generated_override" && "compose_files" != "compose_canonical_model"
    ensures "compose_files" != "resolved_mounts" && "compose_generated_override" != "compose_canonical_model"
    ensures "compose_generated_override" != "resolved_mounts" && "compose_canonical_model" != "resolved_mounts"
  {
    assert |"compose_files"| == 13 && |"compose_generated_override"| == 26;
    assert |"compose_canonical_model"| == 23 && |"resolved_mounts"| == 15;
  }

  lemma OptionalFieldsFaithful(sha: string -> string, a: HashInput, b: HashInput)
    requires Injective(sha)
    requires OptionalFields(sha, a) == OptionalFields(sha, b)
    ensures a.composeFiles == b.composeFiles && a.generatedOverride == b.generatedOverride
    ensures a.composeModel == b.composeModel && TailFields(a) == TailFields(b)
  {
    DistinctNames();
    var files := (x: HashInput) => if x.composeFiles == [] then None else Some(Each(x.composeFiles, ComposeFileDoc));
    var over := (x: HashInput) => match x.generatedOverride case None => None case Some(v) => Some(OverrideDoc(v));
    var model := (x: HashInput) =>
      match x.composeModel case None => None case Some(v) => Some(JsonDoc(Sanitize(sha, v, [])));
    OptionalUnique("compose_files", files(a), files(b),
                   OverrideField(a) + (ModelField(sha, a) + TailFields(a)),
                   OverrideField(b) + (ModelField(sha, b) + TailFields(b)));
    OptionalUnique("compose_generated_override", over(a), over(b),
                   ModelField(sha, a) + TailFields(a), ModelField(sha, b) + TailFields(b));
    OptionalUnique("compose_canonical_model", model(a), model(b), TailFields(a), TailFields(b));
    ComposeFileFaithful();
    if files(a).Some? { EachFaithful(ComposeFileDoc, a.composeFiles, b.composeFiles); }
    OverrideFaithful();
    if a.composeModel.Some? {
      JsonDocInjective(Sanitize(sha, a.composeModel.value, []), Sanitize(sha, b.composeModel.value, []));
      SanitizeInjective(sha, a.composeModel.value, b.composeModel.value, []);
    }
  }

  /**
   The hash decides reuse exactly: under an injective digest, and for inputs that agree on which keys are
   secret, the hashes are equal if and only if everything the hash is meant to see is equal.
   */
  lemma HashDecidesReuse(sha: string -> string, a: HashInput, b: HashInput)
    requires Injective(sha) && SameSecretKeys(a, b)
    ensures HashOf(sha, a) == HashOf(sha, b) <==> SameHashInputs(a, b)
  {
    HeadFaithful(sha, a, b);
    HashDecidesFields(sha, PreimageFields(sha, a), PreimageFields(sha, b));
    SameParts(HeadFields(sha, a), HeadFields(sha, b), OptionalFields(sha, a), OptionalFields(sha, b));
    if OptionalFields(sha, a) == OptionalFields(sha, b) {
      OptionalFieldsFaithful(sha, a, b);
      TailFaithful(a, b);
    }
    if SameHashInputs(a, b) { SameOptionalFields(sha, a, b); }
  }

  /** The text behind a hash determines the fields it is made of. */
  lemma HashDecidesFields(sha: string -> string, p: seq<Field>, q: seq<Field>)
    requires Injective(sha)
    ensures sha(EncFields(p)) == sha(EncFields(q)) <==> p == q
  {
    if sha(EncFields(p)) == sha(EncFields(q)) {
      assert EncFields(p) + "" == EncFields(p) && EncFields(q) + "" == EncFields(q);
      FieldsUnique(p, q, "", "");
    }
  }

  lemma SameOptionalFields(sha: string -> string, a: HashInput, b: HashInput)
    requires SameHashInputs(a, b)
    ensures OptionalFields(sha, a) == OptionalFields(sha, b)
  {
  }

  // ----- when the hash can be trusted -----

  const NO_DEVCONTAINER := Devcontainer(
    None, [], [], None, None, map[], map[], None, None, map[], None, true, true, NoAction, None, [], [], None, None,
    [], [], [], None)

  const NO_CONFIG := Config(
    None, [], [], [], [], [], AutoConfig(true, 1024, 65535, [], Notify), false, false, [],
    CloneIsolation(false, false, None, None, true, true, []), true, NO_DEVCONTAINER,
    Credentials(GitCredentials(true, true, true, HttpsOff, AgentOff), GithubCredentials(false, GithubOff, false)),
    Hooks([], [], [], [], [], [], [], [], [], [], [], []))

  /** An input that holds devcontainer data, the lists of sensitive keys, and nothing else. */
  function OnlyDevcontainer(x: Devcontainer, envKeys: seq<string>, argKeys: seq<string>): HashInput {
    HashInput(NO_CONFIG.(devcontainer := x), [], map[], map[], None, [], None, None, [], None, None, envKeys, argKeys)
  }

  function OnlyEnv(env: map<string, string>): Devcontainer {
    NO_DEVCONTAINER.(containerEnv := env)
  }

  function OnlyArgs(args: map<string, string>): Devcontainer {
    NO_DEVCONTAINER.(source := Some(Dockerfile("Dockerfile", None, args, [], None, [])))
  }

  lemma HashOfOnlyDevcontainer(sha: string -> string, x: Devcontainer, y: Devcontainer,
                               es: seq<string>, et: seq<string>, bs: seq<string>, bt: seq<string>)
    requires DevcontainerDoc(sha, x, es, bs) == DevcontainerDoc(sha, y, et, bt)
    ensures HashOf(sha, OnlyDevcontainer(x, es, bs)) == HashOf(sha, OnlyDevcontainer(y, et, bt))
  {
    var a, b := OnlyDevcontainer(x, es, bs), OnlyDevcontainer(y, et, bt);
    assert ConfigDoc(sha, a) == ConfigDoc(sha, b);
    assert HeadFields(sha, a) == HeadFields(sha, b);
    assert OptionalFields(sha, a) == OptionalFields(sha, b);
  }

  /** Inputs with these lists of sensitive keys and equal hashes are always the same. */
  ghost predicate HashTells(sha: string -> string, es: seq<string>, et: seq<string>, bs: seq<string>, bt: seq<string>) {
    forall a, b :: HasKeys(a, es, bs) && HasKeys(b, et, bt) ==> EqualHashTells(sha, a, b)
  }

  ghost predicate EqualHashTells(sha: string -> string, a: HashInput, b: HashInput) {
    HashOf(sha, a) == HashOf(sha, b) ==> SameHashInputs(a, b)
  }

  predicate HasKeys(a: HashInput, envKeys: seq<string>, argKeys: seq<string>) {
    a.sensitiveContainerEnvKeys == envKeys && a.sensitiveBuildArgKeys == argKeys
  }

  lemma HashOfOtherEnv(sha: string -> string, m: map<string, string>, n: map<string, string>,
                       es: seq<string>, et: seq<string>, bs: seq<string>, bt: seq<string>)
    requires m != n && ContainerEnvForHash(sha, m, es) == ContainerEnvForHash(sha, n, et)
    ensures !HashTells(sha, es, et, bs, bt)
  {
    assert WorkspaceFields(sha, OnlyEnv(m), es, bs) == WorkspaceFields(sha, OnlyEnv(n), et, bt);
    HashOfOtherDevcontainer(sha, OnlyEnv(m), OnlyEnv(n), es, et, bs, bt);
  }

  lemma HashOfOtherArgs(sha: string -> string, m: map<string, string>, n: map<string, string>,
                        es: seq<string>, et: seq<string>, bs: seq<string>, bt: seq<string>)
    requires m != n && BuildArgsForHash(sha, m, bs) == BuildArgsForHash(sha, n, bt)
    ensures !HashTells(sha, es, et, bs, bt)
  {
    assert WorkspaceFields(sha, OnlyArgs(m), es, bs) == WorkspaceFields(sha, OnlyArgs(n), et, bt);
    assert OnlyArgs(m).source.value.args != OnlyArgs(n).source.value.args;
    HashOfOtherDevcontainer(sha, OnlyArgs(m), OnlyArgs(n), es, et, bs, bt);
  }

  lemma HashOfOtherDevcontainer(sha: string -> string, x: Devcontainer, y: Devcontainer,
                                es: seq<string>, et: seq<string>, bs: seq<string>, bt: seq<string>)
    requires DevcontainerDoc(sha, x, es, bs) == DevcontainerDoc(sha, y, et, bt)
    requires x.containerEnv != y.containerEnv || x.source != y.source
    ensures !HashTells(sha, es, et, bs, bt)
  {
    EqualHashLies(sha, x, y, es, et, bs, bt);
    assert HasKeys(OnlyDevcontainer(x, es, bs), es, bs) && HasKeys(OnlyDevcontainer(y, et, bt), et, bt);
  }

  lemma EqualHashLies(sha: string -> string, x: Devcontainer, y: Devcontainer,
                      es: seq<string>, et: seq<string>, bs: seq<string>, bt: seq<string>)
    requires DevcontainerDoc(sha, x, es, bs) == DevcontainerDoc(sha, y, et, bt)
    requires x.containerEnv != y.containerEnv || x.source != y.source
    ensures !EqualHashTells(sha, OnlyDevcontainer(x, es, bs), OnlyDevcontainer(y, et, bt))
  {
    HashOfOnlyDevcontainer(sha, x, y, es, et, bs, bt);
    DifferentDevcontainer(x, y, es, et, bs, bt);
  }

  lemma DifferentDevcontainer(x: Devcontainer, y: Devcontainer,
                              es: seq<string>, et: seq<string>, bs: seq<string>, bt: seq<string>)
    requires x.containerEnv != y.containerEnv || x.source != y.source
    ensures !SameHashInputs(OnlyDevcontainer(x, es, bs), OnlyDevcontainer(y, et, bt))
  {
    assert Written(x).containerEnv == x.containerEnv && Written(x).source == x.source;
    assert Written(y).containerEnv == y.containerEnv && Written(y).source == y.source;
  }

  lemma SameKeysTell(sha: string -> string, es: seq<string>, et: seq<string>, bs: seq<string>, bt: seq<string>)
    requires Injective(sha) && SameKeys(es, et) && SameKeys(bs, bt)
    ensures HashTells(sha, es, et, bs, bt)
  {
    forall a, b | HasKeys(a, es, bs) && HasKeys(b, et, bt) ensures EqualHashTells(sha, a, b) {
      EqualHashMeansSame(sha, a, b);
    }
  }

  lemma EqualHashMeansSame(sha: string -> string, a: HashInput, b: HashInput)
    requires Injective(sha) && SameSecretKeys(a, b)
    ensures EqualHashTells(sha, a, b)
  {
    HashDecidesReuse(sha, a, b);
  }

  /** Equal hashes mean equal inputs exactly when both sides treat the same keys as sensitive. */
  lemma HashTellsExactly(sha: string -> string, es: seq<string>, et: seq<string>, bs: seq<string>, bt: seq<string>)
    requires Injective(sha)
    ensures HashTells(sha, es, et, bs, bt) <==> SameKeys(es, et) && SameKeys(bs, bt)
  {
    if SameKeys(es, et) && SameKeys(bs, bt) { SameKeysTell(sha, es, et, bs, bt); }
    ContainerEnvTellsExactly(sha, es, et);
    BuildArgsTellExactly(sha, bs, bt);
    if !SameKeys(es, et) {
      var m, n :| ContainerEnvForHash(sha, m, es) == ContainerEnvForHash(sha, n, et) && m != n;
      HashOfOtherEnv(sha, m, n, es, et, bs, bt);
    }
    if !SameKeys(bs, bt) {
      var m, n :| BuildArgsForHash(sha, m, bs) == BuildArgsForHash(sha, n, bt) && m != n;
      HashOfOtherArgs(sha, m, n, es, et, bs, bt);
    }
  }

  // ----- computing the hash -----

  method WriteHead(writer: CanonicalWriter, config: Doc, input: HashInput)
    modifies writer
    ensures writer.output == old(writer.output) + EncFields(HeadAround(config, input))
  {
    var locks := SortBy(input.featureLocks, LockLe());
    var first := [Field("version", Str("decune-config-hash-v1")), Field("resolved_config", config)];
    var last := [Field("cli_flags", Entries(input.cliFlags, TomlDoc)),
                 Field("internal_versions", StrMapDoc(input.internalVersions)),
                 Field("build", Maybe(input.build, BuildDoc))];
    writer.WriteFields(first);
    writer.WriteField("feature_locks", Each(locks, FeatureLockDoc));
    writer.WriteFields(last);
    ghost var middle := Field("feature_locks", Each(locks, FeatureLockDoc));
    assert HeadAround(config, input) == first + ([middle] + last);
    JoinFields(first, middle, last);
    Assoc(old(writer.output), EncFields(first), EncField(middle.name, middle.value));
    Assoc(old(writer.output), EncFields(first) + EncField(middle.name, middle.value), EncFields(last));
  }

  method WriteComposeFiles(writer: CanonicalWriter, input: HashInput)
    modifies writer
    ensures writer.output == old(writer.output) + EncFields(ComposeFilesField(input))
  {
    if input.composeFiles != [] {
      writer.WriteField("compose_files", Each(input.composeFiles, ComposeFileDoc));
    }
    OneField("compose_files", Each(input.composeFiles, ComposeFileDoc));
  }

  method WriteOverride(writer: CanonicalWriter, input: HashInput)
    modifies writer
    ensures writer.output == old(writer.output) + EncFields(OverrideField(input))
  {
    match input.generatedOverride
    case None =>
    case Some(generated) =>
      writer.WriteField("compose_generated_override", OverrideDoc(generated));
      OneField("compose_generated_override", OverrideDoc(generated));
  }

  method WriteModel(writer: CanonicalWriter, sha: string -> string, input: HashInput)
    modifies writer
    ensures writer.output == old(writer.output) + EncFields(ModelField(sha, input))
  {
    match input.composeModel
    case None =>
    case Some(model) =>
      var path := new PathStack();
      var sanitized := SanitizeValue(sha, model, path);
      writer.WriteField("compose_canonical_model", JsonDoc(sanitized));
      OneField("compose_canonical_model", JsonDoc(sanitized));
  }

  /** `config_hash`: one writer, its fields pushed in order, the conditional ones only when present. */
  method ComputeConfigHash(sha: string -> string, input: HashInput) returns (hash: string)
    ensures hash == HashOf(sha, input)
  {
    var writer := new CanonicalWriter();
    WriteHead(writer, ConfigDoc(sha, input), input);
    assert writer.output == EncFields(HeadFields(sha, input));
    WriteComposeFiles(writer, input);
    WriteOverride(writer, input);
    WriteModel(writer, sha, input);
    writer.WriteFields(TailFields(input));
    PreimageInParts(sha, input);
    hash := sha(writer.output);
  }

  lemma OneField(name: string, d: Doc)
    ensures EncFields([Field(name, d)]) == EncField(name, d)
  {
    assert [Field(name, d)][1..] == [];
    assert EncField(name, d) + "" == EncField(name, d);
  }

  lemma JoinFields(a: seq<Field>, f: Field, b: seq<Field>)
    ensures EncFields(a + ([f] + b)) == EncFields(a) + EncField(f.name, f.value) + EncFields(b)
  {
    OneField(f.name, f.value);
    EncFieldsConcat([f], b);
    EncFieldsConcat(a, [f] + b);
    Assoc(EncFields(a), EncField(f.name, f.value), EncFields(b));
  }

  lemma PreimageInParts(sha: string -> string, input: HashInput)
    ensures EncFields(PreimageFields(sha, input))
            == EncFields(HeadFields(sha, input)) + EncFields(ComposeFilesField(input)) + EncFields(OverrideField(input))
               + EncFields(ModelField(sha, input)) + EncFields(TailFields(input))
  {
    var h, c, o := HeadFields(sha, input), ComposeFilesField(input), OverrideField(input);
    var m, t := ModelField(sha, input), TailFields(input);
    EncFieldsConcat(h, c + (o + (m + t)));
    EncFieldsConcat(c, o + (m + t));
    EncFieldsConcat(o, m + t);
    EncFieldsConcat(m, t);
    Assoc(EncFields(h), EncFields(c), EncFields(o + (m + t)));
    Assoc(EncFields(h) + EncFields(c), EncFields(o), EncFields(m + t));
    Assoc(EncFields(h) + EncFields(c) + EncFields(o), EncFields(m), EncFields(t));
  }
}
