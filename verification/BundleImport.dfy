/** Merging a verified bundle into a cache: the order of publications, what one index merge writes, and
    what the cache holds when the import stops early or runs again. */
module BundleImport {
  import opened Results
  import opened Oci

  /** A file of the cache by its role: a cached manifest, the index or a blob of an image layout
      directory, or any other file. */
  datatype Name =
    | Manifest(path: string)
    | IndexFile(repo: string)
    | BlobFile(repo: string, digest: Digest)
    | Other(path: string)

  /** Files appear under their final name complete or not at all. */
  type Files = map<Name, Blob>

  /** An inventory entry. Its size and digest stand for the content they promise. */
  datatype File = File(name: Name, promised: Blob)

  datatype Publication = Publication(name: Name, content: Blob)

  /** An import under way: the cache, what was published so far, and whether it still runs. */
  datatype Work = Work(cache: Files, log: seq<Publication>, ok: bool)

  function Publish(w: Work, n: Name, b: Blob): Work {
    w.(cache := w.cache[n := b], log := w.log + [Publication(n, b)])
  }

  function Fail(w: Work): Work { w.(ok := false) }

  /** The cache after some publications. */
  function Replay(cache: Files, log: seq<Publication>): Files
    decreases |log|
  {
    if log == [] then cache
    else
      var last := log[|log| - 1];
      Replay(cache, log[..|log| - 1])[last.name := last.content]
  }

  // ---- the import, as the code performs it

  predicate IsIndexMedia(mediaType: string) {
    var suffix := "index.v1+json";
    |mediaType| >= |suffix| && mediaType[|mediaType| - |suffix|..] == suffix
  }

  function Combine(a: Index, b: Index): Index {
    a.(manifests := UpsertManifests(a.manifests, b.manifests))
  }

  predicate Merges(prior: Descriptor, entry: Descriptor) {
    && entry.Tag() != "" && prior.Tag() == entry.Tag() && prior.digest != entry.digest
    && IsIndexMedia(prior.mediaType) && IsIndexMedia(entry.mediaType)
  }

  /** One existing entry meets one incoming entry. */
  function Absorb(w: Work, src: Files, repo: string, prior: Descriptor, entry: Descriptor): (Work, Descriptor) {
    var a, b := BlobFile(repo, prior.digest), BlobFile(repo, entry.digest);
    if !Merges(prior, entry) then (w, entry)
    else if a !in w.cache || b !in src || w.cache[a].Opaque? || src[b].Opaque? then (Fail(w), entry)
    else
      var merged := Encode(Combine(Decode(w.cache[a].doc), Decode(src[b].doc)));
      (Publish(w, BlobFile(repo, Sha256(merged)), merged),
       entry.(digest := Sha256(merged), size := Length(merged)))
  }

  function AbsorbAll(w: Work, src: Files, repo: string, olds: seq<Descriptor>, entry: Descriptor): (Work, Descriptor)
    decreases |olds|
  {
    if olds == [] || !w.ok then (w, entry)
    else
      var (x, e) := Absorb(w, src, repo, olds[0], entry);
      AbsorbAll(x, src, repo, olds[1..], e)
  }

  function MergeEntries(w: Work, src: Files, repo: string, existing: seq<Descriptor>, incoming: seq<Descriptor>)
    : (Work, seq<Descriptor>)
    decreases |incoming|
  {
    if incoming == [] || !w.ok then (w, existing)
    else
      var (x, e) := AbsorbAll(w, src, repo, existing, incoming[0]);
      if !x.ok then (x, existing) else MergeEntries(x, src, repo, Upsert(existing, e), incoming[1..])
  }

  function ExistingIndex(cache: Files, repo: string, mediaType: string): Option<Index> {
    if IndexFile(repo) !in cache then Some(Index(2, mediaType, []))
    else match cache[IndexFile(repo)]
      case Opaque(_) => None
      case Json(doc, _) => Some(Decode(doc))
  }

  function MergeIndex(w: Work, src: Files, repo: string): Work {
    if !w.ok then w
    else if IndexFile(repo) !in src || src[IndexFile(repo)].Opaque? then Fail(w)
    else
      var incoming := src[IndexFile(repo)].doc;
      match ExistingIndex(w.cache, repo, incoming.mediaType)
      case None => Fail(w)
      case Some(existing) =>
        var (x, ms) := MergeEntries(w, src, repo, existing.manifests, incoming.manifests);
        if !x.ok then x else Publish(x, IndexFile(repo), Encode(existing.(manifests := ms)))
  }

  /** A file is published when what the bundle holds is what the inventory promises. */
  function CopyFile(w: Work, src: Files, f: File): Work {
    if !w.ok then w
    else if f.name !in src || src[f.name] != f.promised then Fail(w)
    else Publish(w, f.name, src[f.name])
  }

  datatype Round = Immutable | Indexes | Manifests

  function RoundOf(n: Name): Round {
    if n.Manifest? then Manifests else if n.IndexFile? then Indexes else Immutable
  }

  function Install(w: Work, src: Files, f: File): Work {
    if f.name.IndexFile? then MergeIndex(w, src, f.name.repo) else CopyFile(w, src, f)
  }

  /** One round goes over the inventory and installs the files that belong to it. */
  function InstallRound(w: Work, src: Files, files: seq<File>, round: Round): Work
    decreases |files|
  {
    if files == [] then w
    else
      var next := if RoundOf(files[0].name) == round then Install(w, src, files[0]) else w;
      InstallRound(next, src, files[1..], round)
  }

  function Import(cache: Files, src: Files, files: seq<File>): Work {
    var blobs := InstallRound(Work(cache, [], true), src, files, Immutable);
    var indexes := InstallRound(blobs, src, files, Indexes);
    InstallRound(indexes, src, files, Manifests)
  }

  // ---- whole caches and bundles

  /** Blobs hold what their names promise; every index is readable, has one entry per tag or untagged
      digest, and names only blobs that are there; a tagged image index is readable. */
  ghost predicate Whole(m: Files) {
    && (forall n :: n in m && n.BlobFile? ==> n.digest.Sha256? && m[n] == n.digest.content)
    && (forall n :: n in m && n.IndexFile? ==> m[n].Json? && WholeIndex(m, n.repo, m[n].doc.manifests))
  }

  ghost predicate WholeIndex(m: Files, repo: string, ms: seq<Descriptor>) {
    && UniqueKeys(ms)
    && forall e :: e in ms ==>
         && e.digest.Sha256? && BlobFile(repo, e.digest) in m
         && (e.Tag() != "" && IsIndexMedia(e.mediaType) ==> e.digest.content.Json?)
  }

  ghost predicate Distinct(files: seq<File>) {
    forall i, j :: 0 <= i < j < |files| ==> files[i].name != files[j].name
  }

  /** The bundle holds what its inventory promises, and nothing else. */
  ghost predicate Inventoried(src: Files, files: seq<File>) {
    && (forall f :: f in files ==> f.name in src && src[f.name] == f.promised)
    && (forall n :: n in src ==> exists f :: f in files && f.name == n)
    && Distinct(files)
  }

  /** A bundle is whole and is what its inventory promises, states true sizes, and no two platforms of one of its
      image indexes match. */
  ghost predicate WholeBundle(src: Files, files: seq<File>) {
    && Whole(src) && Inventoried(src, files)
    && forall n, e | n in src && n.IndexFile? && src[n].Json? && e in src[n].doc.manifests :: Proper(e)
  }

  ghost predicate Proper(e: Descriptor) {
    && e.digest.Sha256? && e.size == Length(e.digest.content)
    && (e.Tag() != "" && IsIndexMedia(e.mediaType) && e.digest.content.Json? ==>
          NoMatchingPairs(e.digest.content.doc.manifests))
  }

  // ---- what one merge produces

  /** The image index that joins the children of two image indexes. */
  ghost function Combined(prior: Digest, entry: Digest): Blob {
    if prior.Sha256? && entry.Sha256? && prior.content.Json? && entry.content.Json?
    then Encode(Combine(Decode(prior.content.doc), Decode(entry.content.doc)))
    else Opaque("")
  }

  /** The entry recorded for an incoming entry. */
  ghost function MergedEntry(existing: seq<Descriptor>, entry: Descriptor): Descriptor {
    var prior := Resolve(existing, entry.Key());
    if prior.Some? && Merges(prior.value, entry) then
      var merged := Combined(prior.value.digest, entry.digest);
      entry.(digest := Sha256(merged), size := Length(merged))
    else entry
  }

  ghost function MergedList(existing: seq<Descriptor>, incoming: seq<Descriptor>): seq<Descriptor>
    decreases |incoming|
  {
    if incoming == [] then existing
    else MergedList(Upsert(existing, MergedEntry(existing, incoming[0])), incoming[1..])
  }

  lemma MergedEntryKey(existing: seq<Descriptor>, entry: Descriptor)
    ensures MergedEntry(existing, entry).Key() == entry.Key()
  {
  }

  lemma {:induction false} MergedListResolves(existing: seq<Descriptor>, incoming: seq<Descriptor>, key: EntryKey)
    requires forall e :: e in incoming ==> e.Key() != key
    ensures Resolve(MergedList(existing, incoming), key) == Resolve(existing, key)
    decreases |incoming|
  {
    if incoming != [] {
      var e := MergedEntry(existing, incoming[0]);
      MergedEntryKey(existing, incoming[0]);
      assert incoming[0] in incoming;
      UpsertIsMapUpdate(existing, e, key);
      MergedListResolves(Upsert(existing, e), incoming[1..], key);
    }
  }

  /** Every incoming entry is recorded as merged with what its tag named before. */
  lemma {:induction false} MergedListHas(existing: seq<Descriptor>, incoming: seq<Descriptor>, entry: Descriptor)
    requires UniqueKeys(incoming) && entry in incoming
    ensures Resolve(MergedList(existing, incoming), entry.Key()) == Some(MergedEntry(existing, entry))
    decreases |incoming|
  {
    var head := MergedEntry(existing, incoming[0]);
    var next := Upsert(existing, head);
    MergedEntryKey(existing, incoming[0]);
    UpsertIsMapUpdate(existing, head, entry.Key());
    if entry == incoming[0] {
      forall e | e in incoming[1..]
        ensures e.Key() != entry.Key()
      {
        var i :| 0 <= i < |incoming[1..]| && incoming[1..][i] == e;
        assert incoming[0].Key() != incoming[i + 1].Key();
      }
      MergedListResolves(next, incoming[1..], entry.Key());
    } else {
      var i :| 0 <= i < |incoming| && incoming[i] == entry;
      assert incoming[0].Key() != incoming[i].Key() && incoming[1..][i - 1] == entry;
      MergedListHas(next, incoming[1..], entry);
    }
  }

  ghost predicate EndsInIndex(mediaType: string) {
    exists front: string :: mediaType == front + "index.v1+json"
  }

  lemma SuffixMeans(mediaType: string)
    ensures IsIndexMedia(mediaType) <==> EndsInIndex(mediaType)
  {
    var suffix := "index.v1+json";
    if IsIndexMedia(mediaType) {
      assert mediaType == mediaType[..|mediaType| - |suffix|] + suffix;
    }
  }

  /** An incoming entry is joined with the earlier one of its tag exactly when the two differ in digest and both
      media types end in index.v1+json: it then names an index of both sides' children, and otherwise is taken
      over as it is. */
  lemma JoinsOnlyIndexes(existing: seq<Descriptor>, prior: Descriptor, entry: Descriptor)
    requires entry.Tag() != "" && Resolve(existing, ByTag(entry.Tag())) == Some(prior)
    requires prior.digest.Sha256? && prior.digest.content.Json?
    requires entry.digest.Sha256? && entry.digest.content.Json?
    ensures var e := MergedEntry(existing, entry);
            if prior.digest != entry.digest && EndsInIndex(prior.mediaType) && EndsInIndex(entry.mediaType) then
              && e.digest.Sha256? && e.digest.content.Json? && e.size == Length(e.digest.content)
              && e.digest.content.doc.manifests ==
                 UpsertManifests(prior.digest.content.doc.manifests, entry.digest.content.doc.manifests)
              && e.Tag() == entry.Tag() && e.mediaType == entry.mediaType && e.platform == entry.platform
            else e == entry
  {
    SuffixMeans(prior.mediaType);
    SuffixMeans(entry.mediaType);
  }

  /** No tag of either side is lost. */
  lemma MergeKeepsTags(existing: seq<Descriptor>, incoming: seq<Descriptor>, tag: string)
    requires UniqueKeys(incoming) && tag != ""
    ensures Resolve(MergedList(existing, incoming), ByTag(tag)).Some? <==>
            Resolve(existing, ByTag(tag)).Some? || Resolve(incoming, ByTag(tag)).Some?
  {
    var i := KeyIndex(incoming, ByTag(tag));
    if i < |incoming| {
      assert incoming[i] in incoming;
      MergedListHas(existing, incoming, incoming[i]);
    } else {
      MergedListResolves(existing, incoming, ByTag(tag));
    }
  }

  /** b stands where its own update would put it. */
  ghost predicate InPlace(ms: seq<Descriptor>, b: Descriptor) {
    var p := MatchIndex(ms, b);
    p < |ms| && ms[p] == b
  }

  lemma UpsertKeepsInPlace(ms: seq<Descriptor>, b: Descriptor, c: Descriptor)
    requires InPlace(ms, b) && !SameManifest(b, c)
    ensures InPlace(UpsertManifest(ms, c), b)
  {
    MatchIndexIs(UpsertManifest(ms, c), b, MatchIndex(ms, b));
  }

  lemma UpsertPutsInPlace(ms: seq<Descriptor>, b: Descriptor)
    ensures InPlace(UpsertManifest(ms, b), b)
  {
    MatchIndexIs(UpsertManifest(ms, b), b, MatchIndex(ms, b));
  }

  lemma {:induction false} UpsertsPutInPlace(ms: seq<Descriptor>, bs: seq<Descriptor>)
    requires NoMatchingPairs(bs)
    ensures forall b :: b in bs ==> InPlace(UpsertManifests(ms, bs), b)
    decreases |bs|
  {
    if bs != [] {
      UpsertsPutInPlace(UpsertManifest(ms, bs[0]), bs[1..]);
      UpsertPutsInPlace(ms, bs[0]);
      StaysInPlace(UpsertManifest(ms, bs[0]), bs[0], bs[1..]);
    }
  }

  lemma {:induction false} StaysInPlace(ms: seq<Descriptor>, b: Descriptor, cs: seq<Descriptor>)
    requires InPlace(ms, b) && forall c :: c in cs ==> !SameManifest(b, c)
    ensures InPlace(UpsertManifests(ms, cs), b)
    decreases |cs|
  {
    if cs != [] {
      UpsertKeepsInPlace(ms, b, cs[0]);
      StaysInPlace(UpsertManifest(ms, cs[0]), b, cs[1..]);
    }
  }

  lemma {:induction false} UpsertsInPlace(ms: seq<Descriptor>, bs: seq<Descriptor>)
    requires forall b :: b in bs ==> InPlace(ms, b)
    ensures UpsertManifests(ms, bs) == ms
    decreases |bs|
  {
    if bs != [] {
      assert InPlace(ms, bs[0]) && UpsertManifest(ms, bs[0]) == ms;
      UpsertsInPlace(ms, bs[1..]);
    }
  }

  /** Merging the same children twice is merging them once. */
  lemma MergingTwice(ms: seq<Descriptor>, bs: seq<Descriptor>)
    requires NoMatchingPairs(bs)
    ensures UpsertManifests(UpsertManifests(ms, bs), bs) == UpsertManifests(ms, bs)
  {
    UpsertsPutInPlace(ms, bs);
    UpsertsInPlace(UpsertManifests(ms, bs), bs);
  }

  /** The joined image index holds every incoming child, and every prior child that matches none. */
  lemma {:induction false} MergedChildren(ms: seq<Descriptor>, bs: seq<Descriptor>, x: Descriptor)
    requires NoMatchingPairs(bs)
    requires x in bs || (x in ms && forall b :: b in bs ==> !SameManifest(x, b))
    ensures x in UpsertManifests(ms, bs)
    decreases |bs|
  {
    if x in bs {
      UpsertsPutInPlace(ms, bs);
      assert InPlace(UpsertManifests(ms, bs), x);
    } else if bs != [] {
      var next := UpsertManifest(ms, bs[0]);
      var i :| 0 <= i < |ms| && ms[i] == x;
      assert !SameManifest(x, bs[0]) && i != MatchIndex(ms, bs[0]) && next[i] == x;
      MergedChildren(next, bs[1..], x);
    }
  }

  /** Every child of the joined index is one of the two sides'. */
  lemma {:induction false} MergedChildrenOnly(ms: seq<Descriptor>, bs: seq<Descriptor>, x: Descriptor)
    requires x in UpsertManifests(ms, bs)
    ensures x in ms || x in bs
    decreases |bs|
  {
    if bs != [] {
      MergedChildrenOnly(UpsertManifest(ms, bs[0]), bs[1..], x);
    }
  }

  lemma MergedEntryTwice(existing: seq<Descriptor>, after: seq<Descriptor>, entry: Descriptor)
    requires Proper(entry)
    requires Resolve(after, entry.Key()) == Some(MergedEntry(existing, entry))
    requires var prior := Resolve(existing, entry.Key());
             prior.Some? && Merges(prior.value, entry) ==>
               prior.value.digest.Sha256? && prior.value.digest.content.Json? && entry.digest.content.Json?
    ensures MergedEntry(after, entry) == MergedEntry(existing, entry)
  {
    var prior, made := Resolve(existing, entry.Key()), MergedEntry(existing, entry);
    if prior.Some? && Merges(prior.value, entry) && made.digest != entry.digest {
      var a, b := prior.value.digest.content.doc, entry.digest.content.doc;
      MergingTwice(a.manifests, b.manifests);
      assert made.digest.content.doc.manifests == UpsertManifests(a.manifests, b.manifests);
      assert Combined(made.digest, entry.digest) == made.digest.content;
    }
  }

  /** Merging the same index twice equals merging it once. */
  lemma MergeTwice(repo: string, m: Files, existing: seq<Descriptor>, incoming: seq<Descriptor>)
    requires WholeIndex(m, repo, existing) && UniqueKeys(incoming)
    requires forall e :: e in incoming ==>
             Proper(e) && (e.Tag() != "" && IsIndexMedia(e.mediaType) ==> e.digest.content.Json?)
    ensures MergedList(MergedList(existing, incoming), incoming) == MergedList(existing, incoming)
  {
    var after := MergedList(existing, incoming);
    forall e | e in incoming
      ensures Resolve(after, e.Key()) == Some(MergedEntry(after, e))
    {
      MergedListHas(existing, incoming, e);
      var i := KeyIndex(existing, e.Key());
      assert i < |existing| ==> existing[i] in existing;
      MergedEntryTwice(existing, after, e);
    }
    MergedListSettled(after, incoming);
  }

  lemma {:induction false} MergedListSettled(after: seq<Descriptor>, incoming: seq<Descriptor>)
    requires forall e :: e in incoming ==> Resolve(after, e.Key()) == Some(MergedEntry(after, e))
    ensures MergedList(after, incoming) == after
    decreases |incoming|
  {
    if incoming != [] {
      assert incoming[0] in incoming;
      MergedEntryKey(after, incoming[0]);
      UpsertPresent(after, MergedEntry(after, incoming[0]));
      MergedListSettled(after, incoming[1..]);
    }
  }
}
