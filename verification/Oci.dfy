/** Digests, descriptors and image indexes, and the two in-place index updates. */
module Oci {
  import opened Results

  const REF_NAME := "org.opencontainers.image.ref.name"
  const INDEX_TYPE := "application/vnd.oci.image.index.v1+json"

  /** SHA-256 is ideal here: a digest is its content, so equal digests mean equal content.
      Unsupported is every digest text that is not a SHA-256 digest. */
  datatype Digest = Sha256(content: Blob) | Unsupported(text: string)

  /** A stored file: JSON text of some length, or bytes that do not decode as JSON. */
  datatype Blob = Json(doc: Document, length: nat) | Opaque(bytes: string)

  /** The decoded fields of a JSON document that is read as an index or as a manifest. */
  datatype Document = Document(
    schemaVersion: int,
    mediaType: string,
    manifests: seq<Descriptor>,
    config: Option<Descriptor>,
    layers: seq<Descriptor>)

  datatype Platform = Platform(os: string, arch: string, variant: string)

  datatype Descriptor = Descriptor(
    mediaType: string,
    digest: Digest,
    size: nat,
    platform: Option<Platform>,
    annotations: map<string, string>)
  {
    /** The tag annotation, empty when absent. */
    function Tag(): string {
      if REF_NAME in annotations then annotations[REF_NAME] else ""
    }

    /** Tagged entries are identified by tag, untagged ones by digest. */
    function Key(): EntryKey {
      if Tag() != "" then ByTag(Tag()) else ByDigest(digest)
    }
  }

  datatype EntryKey = ByTag(tag: string) | ByDigest(digest: Digest)

  datatype Index = Index(schemaVersion: int, mediaType: string, manifests: seq<Descriptor>)

  const EMPTY_INDEX := Index(2, INDEX_TYPE, [])

  function Length(b: Blob): nat {
    match b
    case Json(_, n) => n
    case Opaque(s) => |s|
  }

  /** The JSON text written for an index. Its length stands for the length of that text: a function
      of the index and nothing more. */
  function Encode(i: Index): Blob {
    Json(Document(i.schemaVersion, i.mediaType, i.manifests, None, []), |i.mediaType| + |i.manifests|)
  }

  function Decode(d: Document): Index {
    Index(d.schemaVersion, d.mediaType, d.manifests)
  }

  /** An empty variant matches every variant. */
  predicate SamePlatform(a: Option<Platform>, b: Option<Platform>) {
    match (a, b)
    case (Some(x), Some(y)) =>
      x.os == y.os && x.arch == y.arch && (x.variant == y.variant || x.variant == "" || y.variant == "")
    case _ => false
  }

  predicate SameManifest(a: Descriptor, b: Descriptor) {
    a.digest == b.digest || SamePlatform(a.platform, b.platform)
  }

  // ---- specification of the two updates

  /** Position of the first entry with the given key, or the length. */
  function KeyIndex(ms: seq<Descriptor>, key: EntryKey): (i: nat)
    ensures i <= |ms|
    ensures i < |ms| ==> ms[i].Key() == key
    ensures forall k :: 0 <= k < i ==> ms[k].Key() != key
  {
    if ms == [] || ms[0].Key() == key then 0 else 1 + KeyIndex(ms[1..], key)
  }

  /** Position of the first entry that is the same manifest or platform, or the length. */
  function MatchIndex(ms: seq<Descriptor>, e: Descriptor): (i: nat)
    ensures i <= |ms|
    ensures i < |ms| ==> SameManifest(ms[i], e)
    ensures forall k :: 0 <= k < i ==> !SameManifest(ms[k], e)
  {
    if ms == [] || SameManifest(ms[0], e) then 0 else 1 + MatchIndex(ms[1..], e)
  }

  function PutAt(ms: seq<Descriptor>, i: nat, e: Descriptor): seq<Descriptor>
    requires i <= |ms|
  {
    if i < |ms| then ms[i := e] else ms + [e]
  }

  function Upsert(ms: seq<Descriptor>, e: Descriptor): seq<Descriptor> {
    PutAt(ms, KeyIndex(ms, e.Key()), e)
  }

  function UpsertManifest(ms: seq<Descriptor>, e: Descriptor): seq<Descriptor> {
    PutAt(ms, MatchIndex(ms, e), e)
  }

  function UpsertManifests(ms: seq<Descriptor>, es: seq<Descriptor>): seq<Descriptor>
    decreases |es|
  {
    if es == [] then ms else UpsertManifests(UpsertManifest(ms, es[0]), es[1..])
  }

  /** The entry that a tag or digest resolves to. */
  function Resolve(ms: seq<Descriptor>, key: EntryKey): Option<Descriptor> {
    var i := KeyIndex(ms, key);
    if i < |ms| then Some(ms[i]) else None
  }

  ghost predicate UniqueKeys(ms: seq<Descriptor>) {
    forall i, j :: 0 <= i < j < |ms| ==> ms[i].Key() != ms[j].Key()
  }

  ghost predicate NoMatchingPairs(ms: seq<Descriptor>) {
    forall i, j :: 0 <= i < j < |ms| ==> !SameManifest(ms[i], ms[j])
  }

  // ---- what the updates mean

  lemma KeyIndexIs(ms: seq<Descriptor>, key: EntryKey, i: nat)
    requires i <= |ms| && (i < |ms| ==> ms[i].Key() == key)
    requires forall k :: 0 <= k < i ==> ms[k].Key() != key
    ensures KeyIndex(ms, key) == i
  {
  }

  lemma MatchIndexIs(ms: seq<Descriptor>, e: Descriptor, i: nat)
    requires i <= |ms| && (i < |ms| ==> SameManifest(ms[i], e))
    requires forall k :: 0 <= k < i ==> !SameManifest(ms[k], e)
    ensures MatchIndex(ms, e) == i
  {
  }

  /** The index update is a finite-map update: its own key resolves to the new entry, every other key
      resolves as before, and no second entry for a key appears. */
  lemma UpsertIsMapUpdate(ms: seq<Descriptor>, e: Descriptor, key: EntryKey)
    ensures Resolve(Upsert(ms, e), key) == if key == e.Key() then Some(e) else Resolve(ms, key)
    ensures UniqueKeys(ms) ==> UniqueKeys(Upsert(ms, e))
  {
    UpsertResolves(ms, e, key);
    var i := KeyIndex(ms, e.Key());
    assert forall k :: 0 <= k < |ms| && k != i ==> Upsert(ms, e)[k] == ms[k];
  }

  lemma UpsertResolves(ms: seq<Descriptor>, e: Descriptor, key: EntryKey)
    ensures Resolve(Upsert(ms, e), key) == if key == e.Key() then Some(e) else Resolve(ms, key)
  {
    var i, j := KeyIndex(ms, e.Key()), KeyIndex(ms, key);
    var after := Upsert(ms, e);
    if key == e.Key() {
      KeyIndexIs(after, key, i);
    } else if j < |ms| {
      KeyIndexIs(after, key, j);
    } else {
      KeyIndexIs(after, key, |after|);
    }
  }

  /** Putting back what is already there changes nothing. */
  lemma UpsertPresent(ms: seq<Descriptor>, e: Descriptor)
    requires Resolve(ms, e.Key()) == Some(e)
    ensures Upsert(ms, e) == ms
  {
  }

  /** An image index stays free of matching pairs exactly when the new entry matches at most one of
      the old ones. The empty variant is what lets it match two. */
  lemma UpsertManifestKeepsApart(ms: seq<Descriptor>, e: Descriptor)
    requires NoMatchingPairs(ms)
    ensures NoMatchingPairs(UpsertManifest(ms, e)) <==>
            forall i, j :: 0 <= i < j < |ms| ==> !(SameManifest(ms[i], e) && SameManifest(ms[j], e))
  {
    var i := MatchIndex(ms, e);
    var after := UpsertManifest(ms, e);
    if j, k :| 0 <= j < k < |ms| && SameManifest(ms[j], e) && SameManifest(ms[k], e) {
      assert i <= j && after[i] == e;
      assert after[k] == ms[k] && SameManifest(after[i], after[k]);
    }
  }

  /** A transitive match relation gives that condition. */
  lemma TransitiveMatchKeepsApart(ms: seq<Descriptor>, e: Descriptor)
    requires NoMatchingPairs(ms)
    requires forall a, b :: a in ms && b in ms && SameManifest(a, e) && SameManifest(e, b) ==> SameManifest(a, b)
    ensures NoMatchingPairs(UpsertManifest(ms, e))
  {
    UpsertManifestKeepsApart(ms, e);
  }

  /** The match relation itself is not transitive: an entry without a variant joins two variants, and
      the result keeps a matching pair. */
  lemma WildcardLeavesMatchingPair(a: Digest, b: Digest, c: Digest)
    requires a != b && b != c && a != c
    ensures var v6 := Descriptor("m", a, 0, Some(Platform("linux", "arm", "v6")), map[]);
            var v7 := Descriptor("m", b, 0, Some(Platform("linux", "arm", "v7")), map[]);
            var any := Descriptor("m", c, 0, Some(Platform("linux", "arm", "")), map[]);
            NoMatchingPairs([v6, v7]) && !NoMatchingPairs(UpsertManifest([v6, v7], any))
  {
    var v6 := Descriptor("m", a, 0, Some(Platform("linux", "arm", "v6")), map[]);
    var v7 := Descriptor("m", b, 0, Some(Platform("linux", "arm", "v7")), map[]);
    var any := Descriptor("m", c, 0, Some(Platform("linux", "arm", "")), map[]);
    assert UpsertManifest([v6, v7], any) == [any, v7];
    assert SameManifest([any, v7][0], [any, v7][1]);
  }

  // ---- the updates as the source performs them

  /** An index whose manifest list is changed in place. */
  class ImageIndex {
    var manifests: seq<Descriptor>

    constructor (ms: seq<Descriptor>)
      ensures manifests == ms
    {
      manifests := ms;
    }

    method UpsertIndexDescriptor(entry: Descriptor)
      modifies this
      ensures manifests == Upsert(old(manifests), entry)
    {
      var refName := entry.Tag();
      for i := 0 to |manifests|
        invariant manifests == old(manifests)
        invariant forall k :: 0 <= k < i ==> manifests[k].Key() != entry.Key()
      {
        var existing := manifests[i];
        if existing.Tag() == refName && (existing.digest == entry.digest || refName != "") {
          KeyIndexIs(manifests, entry.Key(), i);
          manifests := manifests[i := entry];
          return;
        }
      }
      KeyIndexIs(manifests, entry.Key(), |manifests|);
      manifests := manifests + [entry];
    }

    method UpsertManifestDescriptor(entry: Descriptor)
      modifies this
      ensures manifests == UpsertManifest(old(manifests), entry)
    {
      for i := 0 to |manifests|
        invariant manifests == old(manifests)
        invariant forall k :: 0 <= k < i ==> !SameManifest(manifests[k], entry)
      {
        var existing := manifests[i];
        if existing.digest == entry.digest || SamePlatform(existing.platform, entry.platform) {
          MatchIndexIs(manifests, entry, i);
          manifests := manifests[i := entry];
          return;
        }
      }
      MatchIndexIs(manifests, entry, |manifests|);
      manifests := manifests + [entry];
    }
  }
}
