/**
 What a merged configuration is, for any sequence of layers.
 */
module MergeFacts {
  import opened Text
  import opened ConfigTypes
  import opened KeyedList
  import opened FeatureId
  import opened StableSort
  import opened Merge
  import Ports

  // ----- keyed lists over a whole run -----

  lemma {:induction false} FlatConcat<A, B>(xs: seq<A>, ys: seq<A>, f: A -> seq<B>)
    ensures Flat(xs + ys, f) == Flat(xs, f) + Flat(ys, f)
  {
    if ys == [] {
      assert xs + ys == xs;
    } else {
      assert (xs + ys)[..|xs + ys| - 1] == xs + ys[..|ys| - 1];
      FlatConcat(xs, ys[..|ys| - 1], f);
    }
  }

  /** Each list is the run of its own operations, layer after layer. */
  lemma {:induction false} MergeAllIsRun(sources: seq<Source>)
    ensures var m := MergeAll(sources);
            && m.mounts == ApplyAll([], Flat(sources, LayerMountOps), KeyOfMount)
            && m.ports == ApplyAll([], Flat(sources, LayerPortOps), KeyOfPort)
            && m.mappings == ApplyAll([], Flat(sources, LayerMappingOps), KeyOfMapping)
            && m.dotfiles == ApplyAll([], Flat(sources, LayerDotfileOps), KeyOfDotfile)
            && m.dotfileEntries == ApplyAll([], Flat(sources, LayerEntryOps), KeyOfEntry)
  {
    if sources != [] {
      var before, last := sources[..|sources| - 1], sources[|sources| - 1];
      MergeAllIsRun(before);
      ApplyConcat([], Flat(before, LayerMountOps), LayerMountOps(last), KeyOfMount);
      ApplyConcat([], Flat(before, LayerPortOps), LayerPortOps(last), KeyOfPort);
      ApplyConcat([], Flat(before, LayerMappingOps), LayerMappingOps(last), KeyOfMapping);
      ApplyConcat([], Flat(before, LayerDotfileOps), LayerDotfileOps(last), KeyOfDotfile);
      ApplyConcat([], Flat(before, LayerEntryOps), LayerEntryOps(last), KeyOfEntry);
    }
  }

  /**
   After any layers, mounts, ports, mappings, dotfiles and dotfile entries hold at most one entry per
   identity: the last enabled write after the last disable.
   */
  lemma MergedListsRefineMaps(sources: seq<Source>)
    ensures var m := MergeAll(sources);
            && Distinct(m.mounts, KeyOfMount) && Distinct(m.ports, KeyOfPort) && Distinct(m.mappings, KeyOfMapping)
            && Distinct(m.dotfiles, KeyOfDotfile) && Distinct(m.dotfileEntries, KeyOfEntry)
            && (forall k :: Find(m.mounts, k, KeyOfMount) == LastWrite(Flat(sources, LayerMountOps), k, KeyOfMount))
            && (forall k :: Find(m.ports, k, KeyOfPort) == LastWrite(Flat(sources, LayerPortOps), k, KeyOfPort))
            && (forall k ::
                  Find(m.mappings, k, KeyOfMapping) == LastWrite(Flat(sources, LayerMappingOps), k, KeyOfMapping))
            && (forall k ::
                  Find(m.dotfiles, k, KeyOfDotfile) == LastWrite(Flat(sources, LayerDotfileOps), k, KeyOfDotfile))
            && (forall k ::
                  Find(m.dotfileEntries, k, KeyOfEntry) == LastWrite(Flat(sources, LayerEntryOps), k, KeyOfEntry))
  {
    MergeAllIsRun(sources);
    KeyedListRefinesMap(Flat(sources, LayerMountOps), KeyOfMount);
    KeyedListRefinesMap(Flat(sources, LayerPortOps), KeyOfPort);
    KeyedListRefinesMap(Flat(sources, LayerMappingOps), KeyOfMapping);
    KeyedListRefinesMap(Flat(sources, LayerDotfileOps), KeyOfDotfile);
    KeyedListRefinesMap(Flat(sources, LayerEntryOps), KeyOfEntry);
  }

  lemma {:induction false} MergedUnionsAreRuns(sources: seq<Source>)
    ensures var m := MergeAll(sources);
            && m.publishPorts == Union([], Flat(sources, LayerPublishPorts))
            && m.capAdd == Union([], Flat(sources, LayerCapAdd))
            && m.securityOpt == Union([], Flat(sources, LayerSecurityOpt))
  {
    if sources != [] {
      var before, last := sources[..|sources| - 1], sources[|sources| - 1];
      MergedUnionsAreRuns(before);
      UnionConcat([], Flat(before, LayerPublishPorts), LayerPublishPorts(last));
      UnionConcat([], Flat(before, LayerCapAdd), LayerCapAdd(last));
      UnionConcat([], Flat(before, LayerSecurityOpt), LayerSecurityOpt(last));
    }
  }

  /**
   Published ports, capabilities and security options are the union over all layers: each value some layer names,
   once, and the layers before any point give a front of the final list.
   */
  lemma MergedUnions(before: seq<Source>, after: seq<Source>)
    ensures var m, all := MergeAll(before), MergeAll(before + after);
            && m.publishPorts <= all.publishPorts && m.capAdd <= all.capAdd && m.securityOpt <= all.securityOpt
            && Distinct(all.publishPorts, Itself) && Distinct(all.capAdd, Itself) && Distinct(all.securityOpt, Itself)
            && (forall p :: p in all.publishPorts <==> p in Flat(before + after, LayerPublishPorts))
            && (forall c :: c in all.capAdd <==> c in Flat(before + after, LayerCapAdd))
            && (forall c :: c in all.securityOpt <==> c in Flat(before + after, LayerSecurityOpt))
  {
    MergedUnionsAreRuns(before);
    MergedUnionsAreRuns(before + after);
    UnionOfLayers(before, after, LayerPublishPorts);
    UnionOfLayers(before, after, LayerCapAdd);
    UnionOfLayers(before, after, LayerSecurityOpt);
  }

  lemma UnionOfLayers<T(!new)>(before: seq<Source>, after: seq<Source>, f: Source -> seq<T>)
    ensures var r := Union([], Flat(before + after, f));
            && Union([], Flat(before, f)) <= r && Distinct(r, Itself)
            && (forall x :: x in r <==> x in Flat(before + after, f))
  {
    FlatConcat(before, after, f);
    UnionConcat([], Flat(before, f), Flat(after, f));
    UnionIsUnion([], Flat(before, f));
    UnionIsUnion(Union([], Flat(before, f)), Flat(after, f));
    UnionIsUnion([], Flat(before + after, f));
  }

  // ----- dotfiles and their history -----

  /** The enabled part of an entry. */
  function EnabledPart(e: Option<DotfileEntry>): Option<Dotfile> {
    match e
    case Some(Enabled(d)) => Some(d)
    case _ => None
  }

  lemma FlatAfter<A, B>(a: seq<B>, xs: seq<A>, f: A -> seq<B>)
    requires xs != []
    ensures a + Flat(xs, f) == (a + Flat(xs[..|xs| - 1], f)) + f(xs[|xs| - 1])
  {
    AssocOf(a, Flat(xs[..|xs| - 1], f), f(xs[|xs| - 1]));
  }

  lemma AssocOf<T>(x: seq<T>, y: seq<T>, z: seq<T>)
    ensures x + (y + z) == (x + y) + z
  {
  }

  lemma {:induction false} DotfileWritesAgree(ds: seq<LayerDotfile>, a: seq<Op<Dotfile, string>>,
                                              b: seq<Op<DotfileEntry, string>>, k: string)
    requires LastWrite(a, k, KeyOfDotfile) == EnabledPart(LastWrite(b, k, KeyOfEntry))
    ensures LastWrite(a + Flat(ds, DotfileOps), k, KeyOfDotfile)
            == EnabledPart(LastWrite(b + Flat(ds, EntryOps), k, KeyOfEntry))
  {
    if ds == [] {
      assert a + [] == a && b + [] == b;
    } else {
      var before, last := ds[..|ds| - 1], ds[|ds| - 1];
      DotfileWritesAgree(before, a, b, k);
      var x, y := a + Flat(before, DotfileOps), b + Flat(before, EntryOps);
      FlatAfter(a, ds, DotfileOps);
      FlatAfter(b, ds, EntryOps);
      DotfileWriteAgrees(last, x, y, k);
    }
  }

  lemma DotfileWriteAgrees(d: LayerDotfile, x: seq<Op<Dotfile, string>>, y: seq<Op<DotfileEntry, string>>, k: string)
    requires LastWrite(x, k, KeyOfDotfile) == EnabledPart(LastWrite(y, k, KeyOfEntry))
    ensures LastWrite(x + DotfileOps(d), k, KeyOfDotfile) == EnabledPart(LastWrite(y + EntryOps(d), k, KeyOfEntry))
  {
    if DotfileOps(d) == [] {
      assert x + [] == x && y + [] == y;
    } else {
      assert (x + DotfileOps(d))[..|x|] == x && (y + EntryOps(d))[..|y|] == y;
    }
  }

  lemma {:induction false} DotfileRunsAgree(sources: seq<Source>, k: string)
    ensures LastWrite(Flat(sources, LayerDotfileOps), k, KeyOfDotfile)
            == EnabledPart(LastWrite(Flat(sources, LayerEntryOps), k, KeyOfEntry))
  {
    if sources != [] {
      var before, last := sources[..|sources| - 1], sources[|sources| - 1];
      DotfileRunsAgree(before, k);
      DotfileWritesAgree(last.layer.dotfiles, Flat(before, LayerDotfileOps), Flat(before, LayerEntryOps), k);
    }
  }

  /** The dotfile list holds exactly the enabled members of the dotfile history. */
  lemma DotfilesAreEnabledEntries(sources: seq<Source>, d: Dotfile)
    ensures d in MergeAll(sources).dotfiles <==> Enabled(d) in MergeAll(sources).dotfileEntries
  {
    var m := MergeAll(sources);
    MergedListsRefineMaps(sources);
    DotfileRunsAgree(sources, d.target);
    FindOfDistinct(m.dotfiles, d, KeyOfDotfile);
    FindOfDistinct(m.dotfileEntries, Enabled(d), KeyOfEntry);
  }

  // ----- features -----

  /** Layers name the canonical id of each Feature they mention (`LayerFeature::new`, `from_raw`). */
  predicate NamesCanonically(fs: seq<LayerFeature>) {
    forall i :: 0 <= i < |fs| ==> fs[i].canonicalId == CanonicalId(fs[i].id)
  }

  predicate StoredCanonically(fs: seq<Feature>) {
    forall i :: 0 <= i < |fs| ==> fs[i].canonicalId == CanonicalId(fs[i].id)
  }

  /** What the run means for one merge identity `k`, looking at nothing else. */
  function Trace(fs: seq<LayerFeature>, k: string): Option<Feature> {
    if fs == [] then None
    else
      var before, f := Trace(fs[..|fs| - 1], k), fs[|fs| - 1];
      if f.enabled then
        if MergeIdentity(f.id) != k then before
        else
          match before
          case None => Some(Feature(f.id, CanonicalId(f.id), f.options))
          case Some(e) => Some(Feature(f.id, CanonicalId(f.id), e.options + f.options))
      else if before.Some? && CanonicalId(before.value.id) == CanonicalId(f.id) then None
      else before
  }

  lemma EnabledFeatureStep(fs: seq<Feature>, f: LayerFeature)
    requires StoredCanonically(fs) && Distinct(fs, KeyOfFeature)
    requires f.enabled && f.canonicalId == CanonicalId(f.id)
    ensures var r, k := MergeFeature(fs, f), MergeIdentity(f.id);
            && StoredCanonically(r) && Distinct(r, KeyOfFeature)
            && (forall j :: j != k ==> Find(r, j, KeyOfFeature) == Find(fs, j, KeyOfFeature))
            && Find(r, k, KeyOfFeature)
               == Some(Feature(f.id, CanonicalId(f.id),
                               match Find(fs, k, KeyOfFeature)
                               case None => f.options
                               case Some(e) => e.options + f.options))
  {
    var k := MergeIdentity(f.id);
    FindMember(fs, k, KeyOfFeature);
    match Find(fs, k, KeyOfFeature)
    case None =>
      var e := Feature(f.id, f.canonicalId, f.options);
      ReplaceAppends(fs, e, KeyOfFeature);
      ReplaceRefines(fs, e, KeyOfFeature);
    case Some(existing) =>
      var e := existing.(id := f.id, options := existing.options + f.options);
      ReplaceRefines(fs, e, KeyOfFeature);
      assert existing.canonicalId == CanonicalId(existing.id);
      IdentityDeterminesCanonicalId(existing.id, f.id);
      var r := Replace(fs, e, KeyOfFeature);
      forall i | 0 <= i < |r| ensures r[i].canonicalId == CanonicalId(r[i].id) {
        assert r[i] in r;
      }
  }

  lemma DisabledFeatureStep(fs: seq<Feature>, f: LayerFeature)
    requires StoredCanonically(fs) && Distinct(fs, KeyOfFeature)
    requires !f.enabled && f.canonicalId == CanonicalId(f.id)
    ensures var r := MergeFeature(fs, f);
            && StoredCanonically(r) && Distinct(r, KeyOfFeature)
            && (forall e :: e in r <==> e in fs && CanonicalId(e.id) != CanonicalId(f.id))
            && (forall k :: Find(r, k, KeyOfFeature)
                            == match Find(fs, k, KeyOfFeature)
                               case None => None
                               case Some(e) => if CanonicalId(e.id) == CanonicalId(f.id) then None else Some(e))
  {
    var r := MergeFeature(fs, f);
    RemoveMembers(fs, f.canonicalId, CanonicalOf);
    forall i | 0 <= i < |r| ensures r[i].canonicalId == CanonicalId(r[i].id) {
      assert r[i] in r;
    }
    forall e | e in fs ensures CanonicalOf(e) == CanonicalId(e.id) {
    }
    forall k ensures Find(r, k, KeyOfFeature)
                     == match Find(fs, k, KeyOfFeature)
                        case None => None
                        case Some(e) => if CanonicalId(e.id) == CanonicalId(f.id) then None else Some(e)
    {
      RemoveByProperty(fs, f.canonicalId, CanonicalOf, k, KeyOfFeature);
      FindMember(fs, k, KeyOfFeature);
    }
    RemoveByProperty(fs, f.canonicalId, CanonicalOf, "", KeyOfFeature);
  }

  /**
   In every reachable list of Features the stored canonical id is that of the stored id, no merge identity
   occurs twice, and what is stored for an identity is what the writes and disables of that identity say.
   */
  lemma {:induction false} FeaturesFollowTheirTrace(fs: seq<LayerFeature>)
    requires NamesCanonically(fs)
    ensures var r := MergeFeatures([], fs);
            && StoredCanonically(r) && Distinct(r, KeyOfFeature)
            && (forall k :: Find(r, k, KeyOfFeature) == Trace(fs, k))
  {
    if fs != [] {
      var before, f := fs[..|fs| - 1], fs[|fs| - 1];
      FeaturesFollowTheirTrace(before);
      var r := MergeFeatures([], before);
      if f.enabled { EnabledFeatureStep(r, f); } else { DisabledFeatureStep(r, f); }
    }
  }

  function LayerFeatures(s: Source): seq<LayerFeature> { s.layer.features }

  lemma {:induction false} MergeFeaturesConcat(fs: seq<Feature>, a: seq<LayerFeature>, b: seq<LayerFeature>)
    ensures MergeFeatures(fs, a + b) == MergeFeatures(MergeFeatures(fs, a), b)
  {
    if b == [] {
      assert a + b == a;
    } else {
      assert (a + b)[..|a + b| - 1] == a + b[..|b| - 1];
      MergeFeaturesConcat(fs, a, b[..|b| - 1]);
    }
  }

  lemma {:induction false} MergeAllFeatures(sources: seq<Source>)
    ensures MergeAll(sources).features == MergeFeatures([], Flat(sources, LayerFeatures))
  {
    if sources != [] {
      var before, last := sources[..|sources| - 1], sources[|sources| - 1];
      MergeAllFeatures(before);
      MergeFeaturesConcat([], Flat(before, LayerFeatures), last.layer.features);
    }
  }

  lemma MergedFeaturesFollowTheirTrace(sources: seq<Source>)
    requires NamesCanonically(Flat(sources, LayerFeatures))
    ensures var r := MergeAll(sources).features;
            && StoredCanonically(r) && Distinct(r, KeyOfFeature)
            && (forall k :: Find(r, k, KeyOfFeature) == Trace(Flat(sources, LayerFeatures), k))
  {
    MergeAllFeatures(sources);
    FeaturesFollowTheirTrace(Flat(sources, LayerFeatures));
  }

  // ----- order -----

  lemma PriorityPreorder()
    ensures TotalPreorder(PriorityLe())
  {
  }

  lemma MappingOrder(a: MappingKey, b: MappingKey, c: MappingKey)
    ensures a == b || MappingLess(a, b) || MappingLess(b, a)
    ensures !MappingLess(a, a)
    ensures MappingLess(a, b) && MappingLess(b, c) ==> MappingLess(a, c)
  {
    LessTrichotomy(a.service, b.service);
    LessIrreflexive(a.service);
    if Less(a.service, b.service) && Less(b.service, c.service) { LessTransitive(a.service, b.service, c.service); }
  }

  lemma MappingPreorder()
    ensures TotalPreorder(MappingLe())
  {
    var le := MappingLe();
    forall x, y ensures le(x, y) || le(y, x) {
      MappingOrder(KeyOfMapping(x), KeyOfMapping(y), KeyOfMapping(x));
    }
    forall x, y, z | le(x, y) && le(y, z) ensures le(x, z) {
      MappingOrder(KeyOfMapping(z), KeyOfMapping(x), KeyOfMapping(y));
      MappingOrder(KeyOfMapping(x), KeyOfMapping(y), KeyOfMapping(z));
      MappingOrder(KeyOfMapping(y), KeyOfMapping(z), KeyOfMapping(x));
    }
  }

  /** The published-port mappings end up strictly sorted by service, protocol and target. */
  lemma MappingsStrictlySorted(sources: seq<Source>)
    ensures var ms := Resolved(MergeAll(sources)).mappings;
            && (forall i, j :: 0 <= i < j < |ms| ==> MappingLess(KeyOfMapping(ms[i]), KeyOfMapping(ms[j])))
            && multiset(ms) == multiset(MergeAll(sources).mappings)
  {
    var before := MergeAll(sources).mappings;
    var ms := Resolved(MergeAll(sources)).mappings;
    MergedListsRefineMaps(sources);
    MappingPreorder();
    SortSorts(before, MappingLe());
    forall i, j | 0 <= i < j < |ms| ensures MappingLess(KeyOfMapping(ms[i]), KeyOfMapping(ms[j])) {
      assert MappingLe()(ms[i], ms[j]);
      MappingOrder(KeyOfMapping(ms[i]), KeyOfMapping(ms[j]), KeyOfMapping(ms[i]));
      if KeyOfMapping(ms[i]) == KeyOfMapping(ms[j]) {
        DistinctAfterPermutation(before, ms, KeyOfMapping, i, j);
      }
    }
  }

  lemma DistinctAfterPermutation<T(!new), K>(xs: seq<T>, ys: seq<T>, key: T -> K, i: nat, j: nat)
    requires Distinct(xs, key) && multiset(xs) == multiset(ys) && i < j < |ys|
    ensures key(ys[i]) != key(ys[j])
  {
    OneCopy(xs, key, ys[i]);
    TwoCopies(ys, i, j);
    assert ys[i] in multiset(xs) && ys[j] in multiset(xs);
    var a :| 0 <= a < |xs| && xs[a] == ys[i];
    var b :| 0 <= b < |xs| && xs[b] == ys[j];
  }

  lemma TwoCopies<T>(ys: seq<T>, i: nat, j: nat)
    requires i < j < |ys|
    ensures ys[i] == ys[j] ==> multiset(ys)[ys[i]] >= 2
  {
    assert ys == ys[..j] + [ys[j]] + ys[j + 1..];
    assert ys[..j][i] == ys[i] && ys[i] in ys[..j];
  }

  lemma {:induction false} OneCopy<T(!new), K>(xs: seq<T>, key: T -> K, y: T)
    requires Distinct(xs, key)
    ensures multiset(xs)[y] <= 1
  {
    if xs != [] {
      assert xs == [xs[0]] + xs[1..];
      OneCopy(xs[1..], key, y);
      assert forall i :: 0 <= i < |xs[1..]| ==> key(xs[1..][i]) == key(xs[1 + i]) != key(xs[0]);
      assert xs[0] !in xs[1..];
    }
  }

  // ----- ports: priority, and what it means for allocation -----

  function AtLeast(p: Priority): MergedPort -> bool {
    (x: MergedPort) => Rank(x.priority) >= Rank(p)
  }

  function Exactly(p: Priority): MergedPort -> bool {
    (x: MergedPort) => x.priority == p
  }

  /** The merged port list is a stable sort of the accumulated ports by descending source priority. */
  lemma PortsSortedByPriority(m: Merged)
    ensures var before, after := AllWithAttributes(m.portAttributes, m.ports), Resolved(m).ports;
            && (forall i, j :: 0 <= i < j < |after| ==> Rank(after[i].priority) >= Rank(after[j].priority))
            && multiset(after) == multiset(before)
            && (forall p :: Filter(after, Exactly(p)) == Filter(before, Exactly(p)))
  {
    var before := AllWithAttributes(m.portAttributes, m.ports);
    PriorityPreorder();
    SortSorts(before, PriorityLe());
    forall p ensures Filter(Resolved(m).ports, Exactly(p)) == Filter(before, Exactly(p)) {
      SortStable(before, PriorityLe(), Exactly(p));
    }
    var after := Resolved(m).ports;
    forall i, j | 0 <= i < j < |after| ensures Rank(after[i].priority) >= Rank(after[j].priority) {
      assert PriorityLe()(after[i], after[j]);
    }
  }

  lemma {:induction false} AttributesKeepPriority(attributes: map<string, Attributes>, ps: seq<MergedPort>, p: Priority)
    ensures Filter(AllWithAttributes(attributes, ps), AtLeast(p))
            == AllWithAttributes(attributes, Filter(ps, AtLeast(p)))
  {
    if ps != [] {
      assert AllWithAttributes(attributes, ps)[1..] == AllWithAttributes(attributes, ps[1..]);
      AttributesKeepPriority(attributes, ps[1..], p);
      assert AtLeast(p)(ps[0]) == AtLeast(p)(WithAttributes(attributes, ps[0]));
    }
  }

  function HighOnly(m: Merged, p: Priority): Merged {
    m.(ports := Filter(m.ports, AtLeast(p)))
  }

  lemma HighPortsComeFirst(m: Merged, p: Priority)
    ensures Resolved(HighOnly(m, p)).ports <= Resolved(m).ports
  {
    var ps := AllWithAttributes(m.portAttributes, m.ports);
    AttributesKeepPriority(m.portAttributes, m.ports, p);
    PriorityPreorder();
    assert DownClosed(AtLeast(p), PriorityLe());
    SortOfFilter(ps, PriorityLe(), AtLeast(p));
    SortSorts(ps, PriorityLe());
    FilterIsPrefix(Sort(ps, PriorityLe()), PriorityLe(), AtLeast(p));
  }

  lemma EntriesOfPrefix(m: Merged, n: Merged)
    requires n.ports <= m.ports
    ensures PortEntries(n) <= PortEntries(m)
  {
  }

  /**
   Priority is respected end to end: dropping every accumulated port of lower priority than `p` before
   resolving leaves a prefix of the resolved port list, so the host port of every remaining entry is the same.
   */
  lemma PriorityRespectedEndToEnd(h: Ports.Host, m: Merged, p: Priority, extra: seq<Ports.Reservation>)
    requires Ports.Allocate(h, [], extra, PortEntries(Resolved(m))).Ok?
    ensures var high := PortEntries(Resolved(HighOnly(m, p)));
            var all := Ports.Allocate(h, [], extra, PortEntries(Resolved(m))).value;
            && high <= PortEntries(Resolved(m)) && |high| <= |all|
            && Ports.Allocate(h, [], extra, high) == Ok(all[..|high|])
  {
    HighPortsComeFirst(m, p);
    EntriesOfPrefix(Resolved(m), Resolved(HighOnly(m, p)));
    PrefixKeepsHosts(h, extra, PortEntries(Resolved(HighOnly(m, p))), PortEntries(Resolved(m)));
  }

  lemma PrefixKeepsHosts(h: Ports.Host, extra: seq<Ports.Reservation>, a: seq<Request>, all: seq<Request>)
    requires a <= all && Ports.Allocate(h, [], extra, all).Ok?
    ensures |a| <= |Ports.Allocate(h, [], extra, all).value|
    ensures Ports.Allocate(h, [], extra, a) == Ok(Ports.Allocate(h, [], extra, all).value[..|a|])
  {
    assert all == a + all[|a|..];
    Ports.AllocationOfPrefix(h, extra, a, all[|a|..]);
  }
}
