/** What storing one image does to its repository, and what storing several leaves cached. */
module ImageWrites {
  import opened Results
  import opened Oci
  import opened ImageStore
  import opened TagListings

  /** The blob file holds the content its name promises. */
  ghost predicate Has(r: Repo, d: Digest) {
    d.Sha256? && d in r.blobs && r.blobs[d] == d.content
  }

  /** Blob files are only added, or replaced by the content their name promises. */
  ghost predicate Grows(a: Repo, b: Repo) {
    && a.blobs.Keys <= b.blobs.Keys
    && forall d :: d in b.blobs ==> (d in a.blobs && b.blobs[d] == a.blobs[d]) || Has(b, d)
  }

  lemma GrowsKeepsComplete(a: Repo, b: Repo, d: Digest)
    requires Grows(a, b) && Complete(a, d) == Ok(true)
    ensures Complete(b, d) == Ok(true)
  {
    GrowsKeepsParts(a, b, Parts(d.content.doc));
  }

  lemma {:induction false} GrowsKeepsParts(a: Repo, b: Repo, parts: seq<Descriptor>)
    requires Grows(a, b) && PartsComplete(a, parts) == Ok(true)
    ensures PartsComplete(b, parts) == Ok(true)
  {
    if parts != [] {
      assert BlobComplete(a, parts[0].digest, parts[0].size) == Ok(true);
      assert BlobComplete(b, parts[0].digest, parts[0].size) == Ok(true);
      GrowsKeepsParts(a, b, parts[1..]);
    }
  }

  // ---- fetching

  predicate IsFetch(op: Op) {
    op.Fetch? || op.FetchPart? || op.Reject?
  }

  ghost predicate Fetched(op: Op, r: Repo) {
    match op
    case Fetch(d) => Has(r, d)
    case FetchPart(p) => Has(r, p.digest) && Length(p.digest.content) == p.size
    case _ => false
  }

  lemma {:induction false} FetchingGrows(ops: seq<Op>, r: Repo, x: Local)
    requires forall op :: op in ops ==> IsFetch(op)
    requires Run(ops, r, x).Ok?
    ensures var (s, y) := Run(ops, r, x).value;
            y == x && s.indexFile == r.indexFile && Grows(r, s) && forall op :: op in ops ==> Fetched(op, s)
    decreases |ops|
  {
    if ops != [] {
      var (m, y) := Step(ops[0], r, x).value;
      assert Run(ops, r, x) == Run(ops[1..], m, y);
      assert IsFetch(ops[0]);
      FetchingGrows(ops[1..], m, y);
      var (s, z) := Run(ops, r, x).value;
      forall op | op in ops
        ensures Fetched(op, s)
      {
        if op == ops[0] {
          assert Fetched(op, m);
        }
      }
    }
  }

  lemma {:induction false} BlobOpsFetch(d: Digest)
    ensures forall op :: op in BlobOps(d) ==> IsFetch(op)
    decreases d
  {
    if d.Sha256? && d.content.Json? {
      ChildOpsFetch(d, d.content.doc.manifests);
      PartOpsFetch(Parts(d.content.doc));
    }
  }

  lemma {:induction false} ChildOpsFetch(d: Digest, children: seq<Descriptor>)
    requires forall c :: c in children ==> c.digest < d
    ensures forall op :: op in ChildOps(d, children) ==> IsFetch(op)
    decreases d, |children|
  {
    if children != [] {
      BlobOpsFetch(children[0].digest);
      ChildOpsFetch(d, children[1..]);
    }
  }

  lemma {:induction false} PartOpsFetch(parts: seq<Descriptor>)
    ensures forall op :: op in PartOps(parts) ==> op.FetchPart?
    ensures forall p :: p in parts ==> FetchPart(p) in PartOps(parts)
  {
    if parts != [] {
      PartOpsFetch(parts[1..]);
      forall p | p in parts
        ensures FetchPart(p) in PartOps(parts)
      {
        assert p == parts[0] || p in parts[1..];
      }
    }
  }

  /** Content that is neither an index nor an image manifest. */
  ghost predicate Unreadable(d: Digest)
    requires d.Sha256?
  {
    d.content.Opaque? || (!IsIndexType(d.content.doc.mediaType) && d.content.doc.config.None?)
  }

  lemma RejectsUnreadable(d: Digest)
    ensures d.Unsupported? || Unreadable(d) ==> Reject in BlobOps(d)
  {
    if d.Unsupported? {
      assert BlobOps(d)[0] == Reject;
    } else if Unreadable(d) {
      assert BlobOps(d)[1] == Reject;
    }
  }

  lemma FetchOpsFetch(image: ComponentImage)
    ensures forall op :: op in FetchOps(image) ==> IsFetch(op)
  {
    BlobOpsFetch(image.digest);
  }

  /** An index document refers to manifests only. */
  ghost predicate IsImageIndex(d: Digest) {
    d.Sha256? && d.content.Json? && Parts(d.content.doc) == []
  }

  ghost predicate Ordinary(image: ComponentImage) {
    && (image.digest.Sha256? && image.digest.content.Json? && IsIndexType(image.digest.content.doc.mediaType) ==>
          IsImageIndex(image.digest))
    && (image.SeparatePin().Some? ==> IsImageIndex(image.SeparatePin().value))
  }

  lemma {:induction false} PartsFetched(r: Repo, parts: seq<Descriptor>)
    requires forall p :: p in parts ==> Fetched(FetchPart(p), r)
    ensures PartsComplete(r, parts) == Ok(true)
  {
    if parts != [] {
      assert Fetched(FetchPart(parts[0]), r);
      PartsFetched(r, parts[1..]);
    }
  }

  /** After all fetches the image, and the upstream index if it pins one, is complete. */
  lemma FetchedImage(image: ComponentImage, r: Repo, x: Local)
    requires Ordinary(image) && Run(FetchOps(image), r, x).Ok?
    ensures var (s, y) := Run(FetchOps(image), r, x).value;
            && y == x && s.indexFile == r.indexFile && Grows(r, s)
            && Complete(s, image.digest) == Ok(true)
            && (image.SeparatePin().Some? ==>
                  Has(s, image.SeparatePin().value) && Complete(s, image.SeparatePin().value) == Ok(true))
  {
    var ops, d := FetchOps(image), image.digest;
    FetchOpsFetch(image);
    FetchingGrows(ops, r, x);
    var s := Run(ops, r, x).value.0;
    assert forall op :: op in BlobOps(d) ==> op in ops;
    if image.SeparatePin().Some? {
      assert Fetch(image.SeparatePin().value) in ops;
    }
    assert BlobOps(d)[0] in ops && Fetched(BlobOps(d)[0], s);
    RejectsUnreadable(d);
    if !IsIndexType(d.content.doc.mediaType) {
      var parts := Parts(d.content.doc);
      PartOpsFetch(parts);
      forall p | p in parts
        ensures Fetched(FetchPart(p), s)
      {
        assert FetchPart(p) in BlobOps(d);
      }
      PartsFetched(s, parts);
    }
  }

  /** An image manifest is complete; an index is there, and so is everything its entries name, level by level. */
  ghost predicate Mirrored(r: Repo, d: Digest)
    decreases d
  {
    && Has(r, d) && d.content.Json?
    && if d.content.doc.mediaType == "application/vnd.oci.image.index.v1+json" ||
          d.content.doc.mediaType == "application/vnd.docker.distribution.manifest.list.v2+json"
       then forall c | c in d.content.doc.manifests :: Mirrored(r, c.digest)
       else Complete(r, d) == Ok(true)
  }

  lemma {:induction false} ChildOpsHold(d: Digest, children: seq<Descriptor>, c: Descriptor)
    requires (forall e :: e in children ==> e.digest < d) && c in children
    ensures forall op :: op in BlobOps(c.digest) ==> op in ChildOps(d, children)
    decreases |children|
  {
    if c != children[0] {
      ChildOpsHold(d, children[1..], c);
    }
  }

  lemma {:induction false} BlobOpsMirror(r: Repo, d: Digest)
    requires forall op :: op in BlobOps(d) ==> Fetched(op, r)
    ensures Mirrored(r, d)
    decreases d
  {
    RejectsUnreadable(d);
    assert BlobOps(d)[0] in BlobOps(d);
    var doc := d.content.doc;
    if IsIndexType(doc.mediaType) {
      forall c | c in doc.manifests
        ensures Mirrored(r, c.digest)
      {
        ChildOpsHold(d, doc.manifests, c);
        assert forall op :: op in ChildOps(d, doc.manifests) ==> op in BlobOps(d);
        BlobOpsMirror(r, c.digest);
      }
    } else {
      PartOpsFetch(Parts(doc));
      forall p | p in Parts(doc)
        ensures Fetched(FetchPart(p), r)
      {
        assert FetchPart(p) in BlobOps(d);
      }
      PartsFetched(r, Parts(doc));
    }
  }

  /** After all fetches everything that the image's own digest names is there, through indexes of any depth. */
  lemma FetchedTree(image: ComponentImage, r: Repo, x: Local)
    requires Run(FetchOps(image), r, x).Ok?
    ensures Mirrored(Run(FetchOps(image), r, x).value.0, image.digest)
  {
    var ops := FetchOps(image);
    FetchOpsFetch(image);
    FetchingGrows(ops, r, x);
    assert forall op :: op in BlobOps(image.digest) ==> op in ops;
    BlobOpsMirror(Run(ops, r, x).value.0, image.digest);
  }

  // ---- recording

  /** The repository index that a successful read returns. */
  ghost function IndexOf(r: Repo): seq<Descriptor> {
    var i := ReadRepoIndex(r);
    if i.Ok? then i.value.manifests else []
  }

  /** The image index behind a tag; nothing when it cannot be read. */
  ghost function View(r: Repo, tag: string): seq<Descriptor>
    requires tag != ""
  {
    var i := ReadTaggedIndex(r, tag);
    if i.Ok? then i.value.manifests else []
  }

  /** s is r with the index file replaced by its old entries plus one, and perhaps more blobs. */
  ghost predicate Puts(r: Repo, s: Repo, e: Descriptor) {
    && ReadRepoIndex(r).Ok?
    && Grows(r, s)
    && ReadRepoIndex(s) == Ok(ReadRepoIndex(r).value.(manifests := Upsert(IndexOf(r), e)))
  }

  lemma ReadBack(r: Repo, i: Index)
    requires i.schemaVersion != 0 && forall e :: e in i.manifests ==> e.digest.Sha256?
    ensures ReadRepoIndex(PutIndex(r, i)) == Ok(i)
  {
  }

  lemma PutIndexPuts(r: Repo, e: Descriptor)
    requires ReadRepoIndex(r).Ok? && e.digest.Sha256?
    ensures Puts(r, WithEntry(r, e), e)
  {
    var i := ReadRepoIndex(r).value;
    assert forall x :: x in Upsert(i.manifests, e) ==> x == e || x in i.manifests;
    ReadBack(r, i.(manifests := Upsert(i.manifests, e)));
  }

  /** The image index that recording an entry under a tag writes. */
  ghost function Rebuilt(r: Repo, tag: string, e: Descriptor): Index
    requires tag != "" && ReadTaggedIndex(r, tag).Ok?
  {
    WithManifest(ReadTaggedIndex(r, tag).value, e)
  }

  ghost function NewTagIndex(r: Repo, image: ComponentImage): Index
    requires image.Tag() != "" && ReadTaggedIndex(r, image.Tag()).Ok?
  {
    Rebuilt(r, image.Tag(), ImageEntry(image))
  }

  ghost function PinEntry(image: ComponentImage): Descriptor
    requires image.SeparatePin().Some?
  {
    var e := RemoteDescriptor(image.SeparatePin().value, None);
    if image.Tag() == "" then e else e.(annotations := map[REF_NAME := image.Tag()])
  }

  /** The repository between two operations of recording an image that began in m. */
  ghost predicate Recording(image: ComponentImage, m: Repo, s: Repo, done: bool) {
    var entry, tag := ImageEntry(image), image.Tag();
    if image.SeparatePin().Some? then
      if tag == "" then if done then Puts(m, s, PinEntry(image)) else s == m
      else
        || (!done && s == m)
        || (!done && Puts(m, s, entry))
        || (done && exists h :: Puts(m, h, entry) && Puts(h, s, PinEntry(image)))
    else if tag == "" then if done then Puts(m, s, entry) else s == m
    else
      || (!done && s == m)
      || (ReadTaggedIndex(m, tag).Ok? &&
          var h := PutBlob(m, Encode(NewTagIndex(m, image)));
          if done then exists g :: Puts(h, g, entry) && Puts(g, s, TagEntry(tag, NewTagIndex(m, image)))
          else s == h)
  }

  lemma PutTwice(r: Repo, e: Descriptor, f: Descriptor)
    requires ReadRepoIndex(r).Ok? && e.digest.Sha256? && f.digest.Sha256?
    ensures var i := ReadRepoIndex(r).value;
            && Puts(r, WithEntry(r, e), e)
            && Puts(WithEntry(r, e), PutIndex(r, i.(manifests := Upsert(Upsert(i.manifests, e), f))), f)
  {
    PutIndexPuts(r, e);
    PutIndexPuts(WithEntry(r, e), f);
  }

  lemma RecordingStages(image: ComponentImage, m: Repo, x: Local, k: nat)
    requires k <= |RecordOps(image)| && Run(RecordOps(image)[..k], m, x).Ok?
    requires Complete(m, image.digest) == Ok(true)
    requires image.SeparatePin().Some? ==> Has(m, image.SeparatePin().value)
    ensures Recording(image, m, Run(RecordOps(image)[..k], m, x).value.0, k == |RecordOps(image)|)
  {
    assert RecordOps(image)[..0] == [];
    if k > 0 {
      if image.Tag() == "" {
        UntaggedStages(image, m, x, k);
      } else if image.SeparatePin().Some? {
        PinnedStages(image, m, x, k);
      } else {
        TaggedStages(image, m, x, k);
      }
    }
  }

  lemma UntaggedStages(image: ComponentImage, m: Repo, x: Local, k: nat)
    requires 0 < k <= |RecordOps(image)| && Run(RecordOps(image)[..k], m, x).Ok? && image.Tag() == ""
    requires Complete(m, image.digest) == Ok(true)
    requires image.SeparatePin().Some? ==> Has(m, image.SeparatePin().value)
    ensures Recording(image, m, Run(RecordOps(image)[..k], m, x).value.0, k == |RecordOps(image)|)
  {
    var ops := RecordOps(image);
    assert ops[..0] == [];
    RunSnoc(ops, 0, m, x);
    if k >= 2 {
      RunSnoc(ops, 1, m, x);
      PutIndexPuts(m, if image.SeparatePin().Some? then PinEntry(image) else ImageEntry(image));
    }
  }

  lemma PinnedStages(image: ComponentImage, m: Repo, x: Local, k: nat)
    requires 0 < k <= |RecordOps(image)| && Run(RecordOps(image)[..k], m, x).Ok?
    requires image.Tag() != "" && image.SeparatePin().Some?
    requires Complete(m, image.digest) == Ok(true) && Has(m, image.SeparatePin().value)
    ensures Recording(image, m, Run(RecordOps(image)[..k], m, x).value.0, k == |RecordOps(image)|)
  {
    if k == 1 {
      assert RecordOps(image)[..0] == [];
      RunSnoc(RecordOps(image), 0, m, x);
    } else if k <= 3 {
      if k == 3 {
        RunSnoc(RecordOps(image), 2, m, x);
      }
      EntryStored(image, m, x);
      PutIndexPuts(m, ImageEntry(image));
    } else {
      PinStored(image, m, x);
      BothRecorded(image, m);
    }
  }

  lemma BothRecorded(image: ComponentImage, m: Repo)
    requires image.Tag() != "" && image.SeparatePin().Some? && image.SeparatePin().value.Sha256? && image.digest.Sha256?
    requires ReadRepoIndex(m).Ok? && ReadRepoIndex(WithEntry(m, ImageEntry(image))).Ok?
    ensures Recording(image, m, WithEntry(WithEntry(m, ImageEntry(image)), PinEntry(image)), true)
  {
    PutIndexPuts(m, ImageEntry(image));
    PutIndexPuts(WithEntry(m, ImageEntry(image)), PinEntry(image));
  }

  lemma EntryStored(image: ComponentImage, m: Repo, x: Local)
    requires image.Tag() != "" && image.SeparatePin().Some? && Run(RecordOps(image)[..2], m, x).Ok?
    ensures ReadRepoIndex(m).Ok? && Run(RecordOps(image)[..2], m, x).value.0 == WithEntry(m, ImageEntry(image))
  {
    var ops := RecordOps(image);
    assert ops[..0] == [];
    RunSnoc(ops, 0, m, x);
    RunSnoc(ops, 1, m, x);
  }

  lemma PinStored(image: ComponentImage, m: Repo, x: Local)
    requires image.Tag() != "" && image.SeparatePin().Some? && Run(RecordOps(image)[..4], m, x).Ok?
    ensures ReadRepoIndex(m).Ok? && ReadRepoIndex(WithEntry(m, ImageEntry(image))).Ok?
    ensures Run(RecordOps(image)[..4], m, x).value.0 == WithEntry(WithEntry(m, ImageEntry(image)), PinEntry(image))
  {
    var ops := RecordOps(image);
    RunSnoc(ops, 3, m, x);
    RunSnoc(ops, 2, m, x);
    EntryStored(image, m, x);
  }

  lemma TaggedStages(image: ComponentImage, m: Repo, x: Local, k: nat)
    requires 0 < k <= |RecordOps(image)| && Run(RecordOps(image)[..k], m, x).Ok?
    requires image.Tag() != "" && image.SeparatePin().None?
    requires Complete(m, image.digest) == Ok(true)
    ensures Recording(image, m, Run(RecordOps(image)[..k], m, x).value.0, k == |RecordOps(image)|)
  {
    if k == 1 {
      assert RecordOps(image)[..0] == [];
      RunSnoc(RecordOps(image), 0, m, x);
    } else if k == 2 {
      TagIndexStored(image, m, x);
    } else if k == 3 {
      RepoIndexLoaded(image, m, x);
    } else {
      BothStored(image, m, x);
    }
  }

  lemma TagIndexStored(image: ComponentImage, m: Repo, x: Local)
    requires image.Tag() != "" && image.SeparatePin().None? && Run(RecordOps(image)[..2], m, x).Ok?
    ensures ReadTaggedIndex(m, image.Tag()).Ok?
    ensures var (s, y) := Run(RecordOps(image)[..2], m, x).value;
            s == PutBlob(m, Encode(NewTagIndex(m, image))) && y.tagIndex == NewTagIndex(m, image)
  {
    var ops := RecordOps(image);
    assert ops[..0] == [];
    RunSnoc(ops, 0, m, x);
    RunSnoc(ops, 1, m, x);
  }

  lemma RepoIndexLoaded(image: ComponentImage, m: Repo, x: Local)
    requires image.Tag() != "" && image.SeparatePin().None? && Run(RecordOps(image)[..3], m, x).Ok?
    ensures ReadTaggedIndex(m, image.Tag()).Ok?
    ensures var (s, y) := Run(RecordOps(image)[..3], m, x).value;
            && s == PutBlob(m, Encode(NewTagIndex(m, image))) && y.tagIndex == NewTagIndex(m, image)
            && ReadRepoIndex(s) == Ok(y.repoIndex)
  {
    RunSnoc(RecordOps(image), 2, m, x);
    TagIndexStored(image, m, x);
  }

  lemma BothStored(image: ComponentImage, m: Repo, x: Local)
    requires image.Tag() != "" && image.SeparatePin().None? && Run(RecordOps(image)[..4], m, x).Ok?
    requires Complete(m, image.digest) == Ok(true)
    ensures Recording(image, m, Run(RecordOps(image)[..4], m, x).value.0, true)
  {
    LastStored(image, m, x);
    BothPut(image, m);
  }

  lemma LastStored(image: ComponentImage, m: Repo, x: Local)
    requires image.Tag() != "" && image.SeparatePin().None? && Run(RecordOps(image)[..4], m, x).Ok?
    ensures ReadTaggedIndex(m, image.Tag()).Ok?
    ensures var h := PutBlob(m, Encode(NewTagIndex(m, image)));
            && ReadRepoIndex(h).Ok?
            && var i, f := ReadRepoIndex(h).value, TagEntry(image.Tag(), NewTagIndex(m, image));
               Run(RecordOps(image)[..4], m, x).value.0 ==
               PutIndex(h, i.(manifests := Upsert(Upsert(i.manifests, ImageEntry(image)), f)))
  {
    LastOp(image);
    RunSnoc(RecordOps(image), 3, m, x);
    RepoIndexLoaded(image, m, x);
    var (s, y) := Run(RecordOps(image)[..3], m, x).value;
    StoreTaggedStep(image.Tag(), ImageEntry(image), s, y);
  }

  lemma LastOp(image: ComponentImage)
    requires image.Tag() != "" && image.SeparatePin().None?
    ensures |RecordOps(image)| == 4 && RecordOps(image)[3] == StoreTagged(image.Tag(), ImageEntry(image))
  {
  }

  lemma StoreTaggedStep(tag: string, e: Descriptor, s: Repo, y: Local)
    ensures var i := y.repoIndex;
            Step(StoreTagged(tag, e), s, y) ==
            Ok((PutIndex(s, i.(manifests := Upsert(Upsert(i.manifests, e), TagEntry(tag, y.tagIndex)))), y))
  {
  }

  lemma BothPut(image: ComponentImage, m: Repo)
    requires image.Tag() != "" && image.SeparatePin().None? && Complete(m, image.digest) == Ok(true)
    requires ReadTaggedIndex(m, image.Tag()).Ok?
    requires ReadRepoIndex(PutBlob(m, Encode(NewTagIndex(m, image)))).Ok?
    ensures var h := PutBlob(m, Encode(NewTagIndex(m, image)));
            var i, f := ReadRepoIndex(h).value, TagEntry(image.Tag(), NewTagIndex(m, image));
            Recording(image, m, PutIndex(h, i.(manifests := Upsert(Upsert(i.manifests, ImageEntry(image)), f))), true)
  {
    var h := PutBlob(m, Encode(NewTagIndex(m, image)));
    PutTwice(h, ImageEntry(image), TagEntry(image.Tag(), NewTagIndex(m, image)));
    assert Puts(h, WithEntry(h, ImageEntry(image)), ImageEntry(image));
  }

  // ---- one image: exactly when it is cached afterwards

  ghost function AfterFetch(r: Repo, image: ComponentImage): Repo {
    var m := Run(FetchOps(image), r, NO_LOCAL);
    if m.Ok? then m.value.0 else r
  }

  /** The image will be found: nothing of its OS and architecture stands before it in the index that
      its tag will name, or, for an untagged reference, its digest is recorded. */
  ghost predicate WillBeFound(r: Repo, image: ComponentImage) {
    match image.SeparatePin()
    case Some(pin) =>
      if image.Tag() == "" then HasDigest(IndexOf(r), image.digest)
      else pin.Sha256? && pin.content.Json? && Listed(image, pin.content.doc.manifests)
    case None =>
      image.Tag() != "" ==>
        var view := View(AfterFetch(r, image), image.Tag());
        forall k :: 0 <= k < MatchIndex(view, ImageEntry(image)) ==> !MatchesPlatform(image, view[k])
  }

  lemma WriteSplits(r: Repo, image: ComponentImage)
    requires WriteImage(r, image).Ok?
    ensures Run(FetchOps(image), r, NO_LOCAL).Ok?
    ensures Run(RecordOps(image), AfterFetch(r, image), Run(FetchOps(image), r, NO_LOCAL).value.1).Ok?
    ensures WriteImage(r, image).value ==
            Run(RecordOps(image), AfterFetch(r, image), Run(FetchOps(image), r, NO_LOCAL).value.1).value.0
  {
    RunAppend(FetchOps(image), RecordOps(image), r, NO_LOCAL);
  }

  lemma UpsertDigests(ms: seq<Descriptor>, e: Descriptor, d: Digest)
    requires e.Tag() == "" || Resolve(ms, ByDigest(d)).Some?
    ensures HasDigest(Upsert(ms, e), d) <==> HasDigest(ms, d) || e.digest == d
  {
    var i := KeyIndex(ms, e.Key());
    var after := Upsert(ms, e);
    assert after[if i < |ms| then i else |ms|] == e;
    if HasDigest(ms, d) {
      DigestStays(ms, e, d);
    }
    assert forall x :: x in after ==> x == e || x in ms;
  }

  lemma DigestStays(ms: seq<Descriptor>, e: Descriptor, d: Digest)
    requires e.Tag() == "" || Resolve(ms, ByDigest(d)).Some?
    requires HasDigest(ms, d)
    ensures HasDigest(Upsert(ms, e), d)
  {
    var after := Upsert(ms, e);
    if e.Tag() == "" {
      var k :| 0 <= k < |ms| && ms[k].digest == d;
      assert after[k].digest == d;
    } else {
      UpsertResolves(ms, e, ByDigest(d));
      assert after[KeyIndex(after, ByDigest(d))].digest == d;
    }
  }

  /** Reading a tag back after its entry was put. */
  lemma ReadTagBack(g: Repo, s: Repo, e: Descriptor)
    requires e.Tag() != "" && Puts(g, s, e) && Has(g, e.digest)
    ensures ReadTaggedIndex(s, e.Tag()) == TaggedContent(s, e) && Has(s, e.digest)
  {
    UpsertIsMapUpdate(IndexOf(g), e, ByTag(e.Tag()));
  }

  /** After an image was stored, the cache check accepts it if and only if the index its tag names has
      no earlier entry for its OS and architecture; an untagged reference pinned to a separate index
      is accepted if and only if its own digest was recorded before. */
  lemma WrittenIsCached(r: Repo, image: ComponentImage)
    requires Ordinary(image) && WriteImage(r, image).Ok?
    ensures Cached(WriteImage(r, image).value, image) <==> WillBeFound(r, image)
  {
    WrittenStages(r, image);
    RecordedIsCached(AfterFetch(r, image), WriteImage(r, image).value, image);
  }

  lemma WrittenStages(r: Repo, image: ComponentImage)
    requires Ordinary(image) && WriteImage(r, image).Ok?
    ensures var m := AfterFetch(r, image);
            && Recording(image, m, WriteImage(r, image).value, true) && Complete(m, image.digest) == Ok(true)
            && (image.SeparatePin().Some? ==> Has(m, image.SeparatePin().value)) && m.indexFile == r.indexFile
  {
    WriteSplits(r, image);
    FetchedImage(image, r, NO_LOCAL);
    var ops := RecordOps(image);
    assert ops[..|ops|] == ops;
    RecordingStages(image, AfterFetch(r, image), Run(FetchOps(image), r, NO_LOCAL).value.1, |ops|);
  }

  lemma RecordedIsCached(m: Repo, s: Repo, image: ComponentImage)
    requires Ordinary(image) && Recording(image, m, s, true) && Complete(m, image.digest) == Ok(true)
    requires image.SeparatePin().Some? ==> Has(m, image.SeparatePin().value)
    ensures Cached(s, image) <==>
            match image.SeparatePin()
            case Some(pin) =>
              if image.Tag() == "" then HasDigest(IndexOf(m), image.digest)
              else Listed(image, pin.content.doc.manifests)
            case None =>
              image.Tag() != "" ==>
                var view := View(m, image.Tag());
                forall k :: 0 <= k < MatchIndex(view, ImageEntry(image)) ==> !MatchesPlatform(image, view[k])
  {
    if image.SeparatePin().Some? {
      PinnedIsCached(m, s, image);
    } else if image.Tag() != "" {
      TaggedIsCached(m, s, image);
    } else {
      UpsertDigests(IndexOf(m), ImageEntry(image), image.digest);
      GrowsKeepsComplete(m, s, image.digest);
    }
  }

  lemma PinnedIsCached(m: Repo, s: Repo, image: ComponentImage)
    requires Ordinary(image) && image.SeparatePin().Some? && Recording(image, m, s, true)
    requires Complete(m, image.digest) == Ok(true) && Has(m, image.SeparatePin().value)
    ensures Cached(s, image) <==>
            if image.Tag() == "" then HasDigest(IndexOf(m), image.digest)
            else Listed(image, image.SeparatePin().value.content.doc.manifests)
  {
    if image.Tag() == "" {
      UpsertDigests(IndexOf(m), PinEntry(image), image.digest);
      GrowsKeepsComplete(m, s, image.digest);
      assert Complete(m, image.SeparatePin().value) == Ok(true);
      GrowsKeepsComplete(m, s, image.SeparatePin().value);
    } else {
      var h :| Puts(m, h, ImageEntry(image)) && Puts(h, s, PinEntry(image));
      UntaggedRecorded(m, h, image);
      PinnedIsListed(h, s, image);
    }
  }

  lemma TaggedIsCached(m: Repo, s: Repo, image: ComponentImage)
    requires image.SeparatePin().None? && image.Tag() != "" && Recording(image, m, s, true)
    requires Complete(m, image.digest) == Ok(true)
    ensures Cached(s, image) <==>
            var view := View(m, image.Tag());
            forall k :: 0 <= k < MatchIndex(view, ImageEntry(image)) ==> !MatchesPlatform(image, view[k])
  {
    var made := NewTagIndex(m, image);
    NewTagIndexShape(m, image);
    var h := PutBlob(m, Encode(made));
    var g :| Puts(h, g, ImageEntry(image)) && Puts(g, s, TagEntry(image.Tag(), made));
    GrowsKeepsComplete(m, h, image.digest);
    UntaggedRecorded(h, g, image);
    TaggedIsListed(g, s, image, made);
    UpsertListsExactly(Listing(image, ImageEntry(image)), View(m, image.Tag()));
  }

  /** The image's own entry is in the repository index and its blobs are whole. */
  ghost predicate Recorded(r: Repo, image: ComponentImage) {
    && ReadRepoIndex(r).Ok?
    && Resolve(IndexOf(r), ByDigest(image.digest)).Some?
    && Complete(r, image.digest) == Ok(true)
  }

  lemma UntaggedRecorded(m: Repo, h: Repo, image: ComponentImage)
    requires Complete(m, image.digest) == Ok(true) && Puts(m, h, ImageEntry(image))
    ensures Recorded(h, image)
  {
    GrowsKeepsComplete(m, h, image.digest);
    UpsertIsMapUpdate(IndexOf(m), ImageEntry(image), ByDigest(image.digest));
  }

  lemma PutKeepsRecorded(g: Repo, s: Repo, e: Descriptor, image: ComponentImage)
    requires Recorded(g, image) && Puts(g, s, e)
    ensures Recorded(s, image) && HasDigest(IndexOf(s), image.digest)
  {
    GrowsKeepsComplete(g, s, image.digest);
    UpsertIsMapUpdate(IndexOf(g), e, ByDigest(image.digest));
    var i := KeyIndex(IndexOf(s), ByDigest(image.digest));
    assert IndexOf(s)[i].digest == image.digest;
  }

  lemma PinnedIsListed(g: Repo, s: Repo, image: ComponentImage)
    requires Ordinary(image) && image.SeparatePin().Some? && image.Tag() != ""
    requires Recorded(g, image) && Has(g, image.SeparatePin().value) && Puts(g, s, PinEntry(image))
    ensures ReadTaggedIndex(s, image.Tag()).Ok?
    ensures Complete(s, image.SeparatePin().value) == Ok(true)
    ensures Listed(image, View(s, image.Tag())) <==> Listed(image, image.SeparatePin().value.content.doc.manifests)
    ensures Cached(s, image) <==> Listed(image, image.SeparatePin().value.content.doc.manifests)
  {
    ReadTagBack(g, s, PinEntry(image));
    PutKeepsRecorded(g, s, PinEntry(image), image);
    assert !Hit(image, PinEntry(image));
  }

  /** What the code writes for a tag is a readable, non-empty index. */
  ghost predicate Shaped(i: Index) {
    i.schemaVersion != 0 && i.mediaType != "" && i.manifests != []
  }

  lemma NewTagIndexShape(m: Repo, image: ComponentImage)
    requires image.Tag() != "" && ReadTaggedIndex(m, image.Tag()).Ok?
    ensures Shaped(NewTagIndex(m, image))
    ensures var h := PutBlob(m, Encode(NewTagIndex(m, image)));
            Grows(m, h) && Has(h, Sha256(Encode(NewTagIndex(m, image))))
  {
  }

  lemma TaggedIsListed(g: Repo, s: Repo, image: ComponentImage, made: Index)
    requires image.SeparatePin().None? && image.Tag() != "" && Shaped(made)
    requires Recorded(g, image) && Has(g, Sha256(Encode(made))) && Puts(g, s, TagEntry(image.Tag(), made))
    ensures ReadTaggedIndex(s, image.Tag()) == Ok(made)
    ensures Cached(s, image) <==> Listed(image, made.manifests)
  {
    ReadTagBack(g, s, TagEntry(image.Tag(), made));
    PutKeepsRecorded(g, s, TagEntry(image.Tag(), made), image);
  }
}
