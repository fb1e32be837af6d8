/**
 src/config/layer.rs: the identities of a Feature reference, read off its tag, digest and registry port.
 */
module FeatureId {
  import opened Text

  predicate IsLocal(id: string) {
    |id| >= 2 && id[0] == '.' && id[1] == '/'
  }

  /** `rfind`: the last position of `c`. */
  function Last(s: string, c: char): (r: Option<nat>)
    ensures r.Some? ==> r.value < |s| && s[r.value] == c && c !in s[r.value + 1..]
    ensures r.None? ==> c !in s
  {
    if s == [] then None
    else
      match Last(s[1..], c)
      case Some(i) =>
        assert s[i + 2..] == s[1..][i + 1..];
        Some(i + 1)
      case None => if s[0] == c then Some(0) else None
  }

  function LowerChar(c: char): char {
    if 'A' <= c <= 'Z' then (c as int + 32) as char else c
  }

  /** `to_ascii_lowercase`. */
  function Lower(s: string): (t: string)
    ensures |t| == |s| && forall i :: 0 <= i < |s| ==> t[i] == LowerChar(s[i])
  {
    seq(|s|, i requires 0 <= i < |s| => LowerChar(s[i]))
  }

  /** The position of the colon that starts a tag; a colon before the last slash belongs to a registry port. */
  function TagColon(s: string): (r: Option<nat>)
    ensures r.Some? ==> r.value < |s| && s[r.value] == ':' && ':' !in s[r.value + 1..]
  {
    match Last(s, ':')
    case None => None
    case Some(colon) =>
      match Last(s, '/')
      case None => Some(colon)
      case Some(slash) => if colon > slash then Some(colon) else None
  }

  function WithoutDigest(id: string): string {
    match First(id, '@')
    case None => id
    case Some(at) => id[..at]
  }

  function WithoutTag(s: string): string {
    match TagColon(s)
    case None => s
    case Some(colon) => s[..colon]
  }

  /** `canonical_feature_id`. */
  function CanonicalId(id: string): string {
    if IsLocal(id) then id else Lower(WithoutTag(WithoutDigest(id)))
  }

  function Tag(id: string): string {
    match TagColon(id)
    case None => "latest"
    case Some(colon) => id[colon + 1..]
  }

  /** `feature_merge_identity`. */
  function MergeIdentity(id: string): string {
    if IsLocal(id) then CanonicalId(id)
    else
      match First(id, '@')
      case Some(at) => CanonicalId(id) + ("@" + id[at + 1..])
      case None => CanonicalId(id) + (":" + Tag(id))
  }

  /** What an identity adds to the canonical id. */
  datatype Version = Unversioned | Digest(digest: string) | Tagged(tag: string)

  function VersionOf(id: string): Version {
    if IsLocal(id) then Unversioned
    else
      match First(id, '@')
      case Some(at) => Digest(id[at + 1..])
      case None => Tagged(Tag(id))
  }

  // ----- splitting at a separator -----

  lemma FirstSeparatorUnique(a: string, x: string, b: string, y: string, c: char)
    requires c !in a && c !in b && a + ([c] + x) == b + ([c] + y)
    ensures a == b && x == y
  {
    var u, v := a + ([c] + x), b + ([c] + y);
    assert u[|a|] == c && v[|b|] == c;
    var k := if |a| < |b| then |a| else |b|;
    assert u[k] == v[k];
    assert a == u[..|a|] && b == v[..|b|];
    assert x == u[|a| + 1..] && y == v[|b| + 1..];
  }

  lemma LastSeparatorUnique(a: string, x: string, b: string, y: string, c: char)
    requires c !in x && c !in y && a + ([c] + x) == b + ([c] + y)
    ensures a == b && x == y
  {
    var u, v := a + ([c] + x), b + ([c] + y);
    assert u[|a|] == c && v[|b|] == c;
    var k := if |a| < |b| then |b| else |a|;
    assert u[k] == v[k];
    assert a == u[..|a|] && b == v[..|b|];
    assert x == u[|a| + 1..] && y == v[|b| + 1..];
  }

  /** The canonical id is, up to case, a prefix of the id without its digest. */
  lemma CanonicalIsPrefix(id: string)
    ensures |CanonicalId(id)| <= |id|
    ensures !IsLocal(id) ==> forall i :: 0 <= i < |CanonicalId(id)| ==> CanonicalId(id)[i] == LowerChar(id[i])
    ensures !IsLocal(id) ==> '@' !in CanonicalId(id)
  {
    if !IsLocal(id) {
      var base := WithoutDigest(id);
      assert '@' !in base;
      assert forall i :: 0 <= i < |base| ==> base[i] == id[i];
      forall i | 0 <= i < |CanonicalId(id)|
        ensures CanonicalId(id)[i] != '@' && CanonicalId(id)[i] == LowerChar(id[i])
      {
        assert base[i] in base;
      }
    }
  }

  /** An id is local exactly when its merge identity looks local. */
  lemma IdentityShowsLocal(id: string)
    ensures IsLocal(MergeIdentity(id)) <==> IsLocal(id)
  {
    CanonicalIsPrefix(id);
    if !IsLocal(id) {
      var c := CanonicalId(id);
      var identity := MergeIdentity(id);
      if |c| >= 2 {
        assert identity[0] == LowerChar(id[0]) && identity[1] == LowerChar(id[1]);
      } else if |c| == 1 {
        assert identity[1] == '@' || identity[1] == ':';
      } else {
        assert identity[0] == '@' || identity[0] == ':';
      }
    }
  }

  lemma TagHasNoDigest(id: string)
    requires '@' !in id
    ensures '@' !in Tag(id)
  {
    match TagColon(id)
    case None =>
    case Some(colon) =>
      forall x | x in id[colon + 1..] ensures x in id { }
  }

  lemma IdentityShowsDigest(id: string)
    requires !IsLocal(id)
    ensures '@' in MergeIdentity(id) <==> First(id, '@').Some?
  {
    CanonicalIsPrefix(id);
    if First(id, '@').Some? {
      assert MergeIdentity(id)[|CanonicalId(id)|] == '@';
    } else {
      TagHasNoDigest(id);
      NotInConcat('@', CanonicalId(id), Tag(id));
    }
  }

  lemma NotInConcat(c: char, a: string, b: string)
    requires c !in a && c !in b && c != ':'
    ensures c !in a + (":" + b)
  {
  }

  lemma NoDigestInCanonical(id: string)
    requires !IsLocal(id)
    ensures '@' !in CanonicalId(id)
  {
    CanonicalIsPrefix(id);
  }

  lemma DigestedIdentities(a: string, b: string)
    requires VersionOf(a).Digest? && VersionOf(b).Digest?
    requires MergeIdentity(a) == MergeIdentity(b)
    ensures CanonicalId(a) == CanonicalId(b) && VersionOf(a) == VersionOf(b)
  {
    NoDigestInCanonical(a);
    NoDigestInCanonical(b);
    FirstSeparatorUnique(CanonicalId(a), VersionOf(a).digest, CanonicalId(b), VersionOf(b).digest, '@');
  }

  lemma TaggedIdentities(a: string, b: string)
    requires VersionOf(a).Tagged? && VersionOf(b).Tagged?
    requires MergeIdentity(a) == MergeIdentity(b)
    ensures CanonicalId(a) == CanonicalId(b) && VersionOf(a) == VersionOf(b)
  {
    LastSeparatorUnique(CanonicalId(a), Tag(a), CanonicalId(b), Tag(b), ':');
  }

  /** Two ids have the same merge identity exactly when they have the same canonical id and the same version. */
  lemma IdentityExactly(a: string, b: string)
    ensures MergeIdentity(a) == MergeIdentity(b) <==> CanonicalId(a) == CanonicalId(b) && VersionOf(a) == VersionOf(b)
  {
    if MergeIdentity(a) == MergeIdentity(b) {
      IdentityShowsLocal(a);
      IdentityShowsLocal(b);
      if !IsLocal(a) {
        IdentityShowsDigest(a);
        IdentityShowsDigest(b);
        if First(a, '@').Some? { DigestedIdentities(a, b); } else { TaggedIdentities(a, b); }
      }
    }
  }

  /** A Feature's merge identity determines its canonical id, for all ids. */
  lemma IdentityDeterminesCanonicalId(a: string, b: string)
    requires MergeIdentity(a) == MergeIdentity(b)
    ensures CanonicalId(a) == CanonicalId(b)
  {
    IdentityExactly(a, b);
  }

  // ----- the same Feature in other versions -----

  /** An id that may be followed by a tag or a digest: not local, and without either. */
  predicate IsBase(id: string) {
    !IsLocal(id) && '@' !in id && TagColon(id).None?
  }

  predicate IsTag(tag: string) {
    '@' !in tag && '/' !in tag && ':' !in tag
  }

  lemma LastIs(s: string, c: char, i: nat)
    requires i < |s| && s[i] == c && c !in s[i + 1..]
    ensures Last(s, c) == Some(i)
  {
    assert c in s;
  }

  lemma TagColonOfTagged(base: string, tag: string)
    requires IsBase(base) && IsTag(tag)
    ensures TagColon(base + ([':'] + tag)) == Some(|base|)
  {
    var id := base + ([':'] + tag);
    assert id[|base| + 1..] == tag;
    LastIs(id, ':', |base|);
    assert forall k :: |base| < k < |id| ==> id[k] == tag[k - |base| - 1];
  }

  lemma VersionOfTagged(base: string, tag: string)
    requires IsBase(base) && IsTag(tag)
    ensures var id := base + ([':'] + tag); CanonicalId(id) == CanonicalId(base) && VersionOf(id) == Tagged(tag)
  {
    var id := base + ([':'] + tag);
    TagColonOfTagged(base, tag);
    NotLocalEither(base, ':', tag);
    assert id[..|base|] == base && id[|base| + 1..] == tag;
    assert '@' !in id;
  }

  lemma NotLocalEither(base: string, separator: char, rest: string)
    requires !IsLocal(base) && (separator == ':' || separator == '@')
    ensures !IsLocal(base + ([separator] + rest))
  {
    var id := base + ([separator] + rest);
    assert forall k :: 0 <= k < |base| ==> id[k] == base[k];
  }

  lemma VersionOfDigested(base: string, digest: string)
    requires IsBase(base)
    ensures var id := base + (['@'] + digest); CanonicalId(id) == CanonicalId(base) && VersionOf(id) == Digest(digest)
  {
    var id := base + (['@'] + digest);
    FirstAfter(base, '@', digest);
    NotLocalEither(base, '@', digest);
    assert id[..|base|] == base && id[|base| + 1..] == digest;
    assert First(base, '@').None?;
  }

  /**
   A canonical id forgets the version and an identity does not: all tagged and digested forms of an id share its
   canonical id, two of them have the same identity only if they are the same form, and an id without a tag is its
   form with the tag `latest`.
   */
  lemma CanonicalIdForgetsVersion(base: string, tag: string, other: string, digest: string)
    requires IsBase(base) && IsTag(tag) && IsTag(other)
    ensures var x, y, z := base + ([':'] + tag), base + ([':'] + other), base + (['@'] + digest);
            && CanonicalId(x) == CanonicalId(y) == CanonicalId(z) == CanonicalId(base)
            && (MergeIdentity(x) == MergeIdentity(y) <==> tag == other)
            && MergeIdentity(x) != MergeIdentity(z)
            && (MergeIdentity(x) == MergeIdentity(base) <==> tag == "latest")
  {
    var x, y, z := base + ([':'] + tag), base + ([':'] + other), base + (['@'] + digest);
    VersionOfTagged(base, tag);
    VersionOfTagged(base, other);
    VersionOfDigested(base, digest);
    assert VersionOf(base) == Tagged("latest");
    IdentityExactly(x, y);
    IdentityExactly(x, z);
    IdentityExactly(x, base);
  }
}
