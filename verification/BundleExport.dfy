/** Copying selected cached images into a fresh cache. */
module BundleExport {
  import opened Results
  import opened Oci
  import opened ImageStore
  import opened TagListings
  import opened ImageWrites
  import opened RepoHistory
  import ImageNames

  // ---- the copy

  function CopyBlobs(src: Repo, dst: Repo, ds: seq<Digest>): Result<Repo>
    decreases |ds|
  {
    if ds == [] then Ok(dst)
    else if ds[0] !in src.blobs then Err
    else CopyBlobs(src, dst.(blobs := dst.blobs[ds[0] := src.blobs[ds[0]]]), ds[1..])
  }

  function PutEntry(r: Repo, e: Descriptor): Result<Repo> {
    if ReadRepoIndex(r).Err? then Err else Ok(WithEntry(r, e))
  }

  function PutTagged(r: Repo, tag: string, e: Descriptor): Result<Repo>
    requires tag != ""
  {
    var i :- ReadTaggedIndex(r, tag);
    var tagged := WithManifest(i, e);
    var h := PutBlob(r, Encode(tagged));
    var x :- ReadRepoIndex(h);
    Ok(PutIndex(h, x.(manifests := Upsert(Upsert(x.manifests, e), TagEntry(tag, tagged)))))
  }

  /** Entries of the source index that carry the pinned digest, under whatever tag. */
  function CopyPinned(dst: Repo, entries: seq<Descriptor>, pin: Digest): Result<Repo>
    decreases |entries|
  {
    if entries == [] then Ok(dst)
    else if entries[0].digest != pin then CopyPinned(dst, entries[1..], pin)
    else
      var next :- PutEntry(dst, entries[0]);
      CopyPinned(next, entries[1..], pin)
  }

  /** Unlike the download, the copy records a platform only when its text has exactly two parts. */
  function ExportEntry(image: ComponentImage): Descriptor {
    RemoteDescriptor(image.digest,
                     if |image.platform| == 2 then Some(Platform(image.platform[0], image.platform[1], "")) else None)
  }

  function ImageBlobs(doc: Document, d: Digest): seq<Digest> {
    Digests(doc.layers) + (if doc.config.Some? then [doc.config.value.digest] else []) + [d]
  }

  function Digests(es: seq<Descriptor>): seq<Digest> {
    if es == [] then [] else [es[0].digest] + Digests(es[1..])
  }

  function CopyCachedImage(src: Repo, dst: Repo, image: ComponentImage): Result<Repo> {
    var d := image.digest;
    if d !in src.blobs || src.blobs[d].Opaque? then Err
    else
      var r :- CopyBlobs(src, dst, ImageBlobs(src.blobs[d].doc, d));
      var s :- CopyPin(src, r, image);
      if image.Tag() != "" && image.SeparatePin().None? then PutTagged(s, image.Tag(), ExportEntry(image))
      else PutEntry(s, ExportEntry(image))
  }

  function CopyPin(src: Repo, dst: Repo, image: ComponentImage): Result<Repo> {
    match image.SeparatePin()
    case None => Ok(dst)
    case Some(pin) =>
      var r :- CopyBlobs(src, dst, [pin]);
      var index :- ReadRepoIndex(src);
      CopyPinned(r, index.manifests, pin)
  }

  function RepoName(image: ComponentImage): string {
    ImageNames.MirrorRepo(image.reference.repository)
  }

  function AddImage(src: map<string, Repo>, dst: map<string, Repo>, image: ComponentImage): Result<map<string, Repo>> {
    var name := RepoName(image);
    var r :- CopyCachedImage(RepoAt(src, name), RepoAt(dst, name), image);
    Ok(dst[name := r])
  }

  /** The cache after the first k images were copied into an empty one. */
  function ExportedSoFar(src: map<string, Repo>, images: seq<ComponentImage>, k: nat): Result<map<string, Repo>>
    requires k <= |images|
  {
    Fold((dst, image) => AddImage(src, dst, image), map[], images, k)
  }

  // ---- hypotheses

  /** All selected images of one repository are cached in the source, and nothing is listed wrongly: no
      two images of a tag compete for an OS and architecture, image indexes list the selected images
      under their own platforms, a tag with a pinned index points at it, and pinned indexes are intact. */
  ghost predicate Exportable(src: Repo, images: set<ComponentImage>) {
    && (forall i :: i in images ==> Cached(src, i) && Sourced(src, i))
    && UniqueKeys(IndexOf(src))
    && (forall tag :: tag != "" ==> Apart(ListingsOf(images, tag, ExportEntry)))
    && forall tag, i, k | tag != "" && i in images && i.Tag() == tag && 0 <= k < |View(src, tag)| ::
         View(src, tag)[k].digest == i.digest && View(src, tag)[k].platform.Some? ==>
           MatchesPlatform(i, View(src, tag)[k])
  }

  ghost predicate Sourced(src: Repo, i: ComponentImage) {
    i.SeparatePin().Some? ==>
      && Has(src, i.SeparatePin().value) && IsImageIndex(i.SeparatePin().value)
      && (i.Tag() != "" ==>
            var e := Resolve(IndexOf(src), ByTag(i.Tag()));
            e.Some? && e.value.digest == i.SeparatePin().value)
  }

  // ---- what every copy keeps

  ghost predicate TagReady(r: Repo, images: set<ComponentImage>, tag: string)
    requires tag != ""
  {
    && TagSound(r, tag) && ReadTaggedIndex(r, tag).Ok?
    && Honest(ListingsOf(images, tag, ExportEntry), View(r, tag))
    && forall l :: l in ListingsOf(images, tag, ExportEntry) ==> Ready(l, View(r, tag))
  }

  ghost predicate Exported(r: Repo, images: set<ComponentImage>, done: set<ComponentImage>) {
    && done <= images && ReadRepoIndex(r).Ok?
    && (forall i :: i in images && i.Tag() != "" ==> TagReady(r, images, i.Tag()))
    && (forall i :: i in done ==> Settled(r, i))
  }

  lemma EmptyExported(images: set<ComponentImage>)
    ensures Exported(EMPTY_REPO, images, {})
  {
  }

  // ---- blobs

  lemma {:induction false} CopyBlobsGrows(src: Repo, dst: Repo, ds: seq<Digest>)
    requires forall d :: d in ds ==> Has(src, d)
    ensures CopyBlobs(src, dst, ds).Ok?
    ensures var r := CopyBlobs(src, dst, ds).value;
            Grows(dst, r) && r.indexFile == dst.indexFile && forall d :: d in ds ==> Has(r, d)
    decreases |ds|
  {
    if ds != [] {
      assert ds[0] in ds;
      var next := dst.(blobs := dst.blobs[ds[0] := src.blobs[ds[0]]]);
      CopyBlobsGrows(src, next, ds[1..]);
      assert Has(next, ds[0]);
    }
  }

  lemma {:induction false} DigestsOf(es: seq<Descriptor>)
    ensures forall d :: d in Digests(es) ==> exists e :: e in es && e.digest == d
    ensures forall e :: e in es ==> e.digest in Digests(es)
  {
    if es != [] {
      DigestsOf(es[1..]);
      assert es[0] in es;
      forall e | e in es
        ensures e.digest in Digests(es)
      {
        assert e == es[0] || e in es[1..];
      }
    }
  }

  lemma {:induction false} PartsPresent(r: Repo, parts: seq<Descriptor>)
    requires PartsComplete(r, parts) == Ok(true)
    ensures forall p :: p in parts ==> Fetched(FetchPart(p), r)
  {
    if parts != [] {
      assert BlobComplete(r, parts[0].digest, parts[0].size) == Ok(true);
      PartsPresent(r, parts[1..]);
      forall p | p in parts
        ensures Fetched(FetchPart(p), r)
      {
        assert p == parts[0] || p in parts[1..];
      }
    }
  }

  /** The blobs of an image that is complete in the source are complete in the copy. */
  lemma ImageBlobsCopied(src: Repo, dst: Repo, d: Digest)
    requires Complete(src, d) == Ok(true)
    ensures d in src.blobs && src.blobs[d].Json?
    ensures CopyBlobs(src, dst, ImageBlobs(src.blobs[d].doc, d)).Ok?
    ensures var r := CopyBlobs(src, dst, ImageBlobs(src.blobs[d].doc, d)).value;
            Grows(dst, r) && r.indexFile == dst.indexFile && Complete(r, d) == Ok(true)
  {
    var doc := d.content.doc;
    var ds := ImageBlobs(doc, d);
    PartsPresent(src, Parts(doc));
    DigestsOf(doc.layers);
    forall x | x in ds
      ensures Has(src, x)
    {
      if x != d {
        assert exists p :: p in Parts(doc) && p.digest == x;
      }
    }
    CopyBlobsGrows(src, dst, ds);
    var r := CopyBlobs(src, dst, ds).value;
    forall p | p in Parts(doc)
      ensures Fetched(FetchPart(p), r)
    {
      assert Fetched(FetchPart(p), src) && p.digest in ds;
    }
    PartsFetched(r, Parts(doc));
    assert d in ds;
  }

  // ---- entries

  lemma GrowExported(r: Repo, s: Repo, images: set<ComponentImage>, done: set<ComponentImage>)
    requires Exported(r, images, done) && Grows(r, s) && s.indexFile == r.indexFile
    ensures Exported(s, images, done)
  {
    forall i | i in images
      ensures (i.Tag() != "" ==> TagReady(s, images, i.Tag())) && (i in done ==> Settled(s, i))
    {
      if i.Tag() != "" {
        assert TagReady(r, images, i.Tag());
        TagGrows(r, s, i.Tag());
      }
      if i in done {
        SettledGrows(r, s, i);
      }
    }
  }

  lemma OtherTagExported(r: Repo, s: Repo, e: Descriptor, images: set<ComponentImage>, done: set<ComponentImage>,
                         i: ComponentImage)
    requires Exported(r, images, done) && Puts(r, s, e) && i in images && (i.Tag() == "" || i.Tag() != e.Tag())
    ensures i.Tag() != "" ==> TagReady(s, images, i.Tag())
    ensures i in done ==> Settled(s, i)
  {
    if i.Tag() != "" {
      assert TagReady(r, images, i.Tag());
      PutKeepsTag(r, s, e, i.Tag());
    }
    if i in done {
      UpsertIsMapUpdate(IndexOf(r), e, ByDigest(i.digest));
      SettledGrows(r, s, i);
    }
  }

  lemma UntaggedPutExported(r: Repo, s: Repo, e: Descriptor, images: set<ComponentImage>, done: set<ComponentImage>)
    requires Exported(r, images, done) && Puts(r, s, e) && e.Tag() == ""
    ensures Exported(s, images, done)
  {
    forall i | i in images
      ensures (i.Tag() != "" ==> TagReady(s, images, i.Tag())) && (i in done ==> Settled(s, i))
    {
      OtherTagExported(r, s, e, images, done, i);
    }
  }

  /** A source index that names an image first is ready for it. */
  lemma ListedIsReady(l: Listing, ms: seq<Descriptor>)
    requires Listed(l.image, ms)
    ensures Ready(l, ms)
  {
    var q := HitIndex(l.image, ms);
    forall k | 0 <= k < |ms| && MatchesPlatform(l.image, ms[k]) && ms[k].digest != l.image.digest
      ensures exists j :: 0 <= j < k && ms[j].digest == l.image.digest
    {
      assert q < k && ms[q].digest == l.image.digest;
    }
  }

  lemma SourceViewReady(src: Repo, images: set<ComponentImage>, tag: string)
    requires Exportable(src, images) && tag != ""
    ensures Honest(ListingsOf(images, tag, ExportEntry), View(src, tag))
    ensures forall l :: l in ListingsOf(images, tag, ExportEntry) ==>
            Ready(l, View(src, tag)) && Listed(l.image, View(src, tag))
  {
    var ls, ms := ListingsOf(images, tag, ExportEntry), View(src, tag);
    forall l | l in ls
      ensures Ready(l, ms) && Listed(l.image, ms)
    {
      assert Cached(src, l.image);
      ListedIsReady(l, ms);
    }
    forall a, b, k | a in ls && b in ls && a.image.digest != b.image.digest && 0 <= k < |ms| &&
      ms[k].digest == a.image.digest
      ensures !SamePlatform(ms[k].platform, b.entry.platform)
    {
      assert Apart(ls) && !MatchesPlatform(a.image, b.entry);
    }
  }

  /** Taking over a tag from the source gives it the source's image index. */
  lemma SourceTagExported(src: Repo, r: Repo, s: Repo, e: Descriptor, images: set<ComponentImage>,
                          done: set<ComponentImage>)
    requires Exportable(src, images) && Exported(r, images, done) && Puts(r, s, e)
    requires ReadRepoIndex(src).Ok? && e in IndexOf(src) && e.Tag() != "" && Has(src, e.digest) && Has(r, e.digest)
    ensures Exported(s, images, done)
  {
    ReadTagBack(r, s, e);
    TagPutSound(r, s, e);
    SourceTagView(src, e);
    assert TaggedContent(s, e) == TaggedContent(src, e);
    SourceViewReady(src, images, e.Tag());
    forall i | i in images
      ensures (i.Tag() != "" ==> TagReady(s, images, i.Tag())) && (i in done ==> Settled(s, i))
    {
      if i.Tag() == "" || i.Tag() != e.Tag() {
        OtherTagExported(r, s, e, images, done, i);
      } else {
        assert Listing(i, ExportEntry(i)) in ListingsOf(images, e.Tag(), ExportEntry);
        assert Cached(src, i);
        assert View(s, e.Tag()) == View(src, e.Tag());
        if i in done {
          PutKeepsRecorded(r, s, e, i);
          if i.SeparatePin().Some? {
            GrowsKeepsComplete(r, s, i.SeparatePin().value);
          }
        }
      }
    }
  }

  lemma SourceTagView(src: Repo, e: Descriptor)
    requires ReadRepoIndex(src).Ok? && UniqueKeys(IndexOf(src)) && e in IndexOf(src) && e.Tag() != ""
    ensures ReadTaggedIndex(src, e.Tag()) == TaggedContent(src, e)
  {
    var ms := IndexOf(src);
    var i :| 0 <= i < |ms| && ms[i] == e;
    KeyIndexIs(ms, e.Key(), i);
  }

  lemma PutEntryPuts(r: Repo, e: Descriptor)
    requires ReadRepoIndex(r).Ok? && e.digest.Sha256?
    ensures PutEntry(r, e).Ok? && Puts(r, PutEntry(r, e).value, e)
  {
    PutIndexPuts(r, e);
  }

  /** Copying the entries of a pinned index, aliases included, undoes nothing. */
  lemma {:induction false} CopyPinnedExported(src: Repo, r: Repo, entries: seq<Descriptor>, pin: Digest,
                                              images: set<ComponentImage>, done: set<ComponentImage>)
    requires Exportable(src, images) && Exported(r, images, done) && Has(src, pin) && Has(r, pin)
    requires ReadRepoIndex(src).Ok? && (forall e :: e in entries ==> e in IndexOf(src)) && UniqueKeys(entries)
    ensures CopyPinned(r, entries, pin).Ok?
    ensures var s := CopyPinned(r, entries, pin).value;
            && Exported(s, images, done) && Grows(r, s) && Has(s, pin)
            && (forall e :: e in entries && e.digest == pin ==> Resolve(IndexOf(s), e.Key()) == Some(e))
            && (forall key {:trigger Resolve(IndexOf(s), key)} ::
                  (forall e :: e in entries ==> e.Key() != key) ==>
                    Resolve(IndexOf(s), key) == Resolve(IndexOf(r), key))
    decreases |entries|
  {
    if entries != [] {
      var e, rest := entries[0], entries[1..];
      assert e in entries;
      forall x | x in rest
        ensures x.Key() != e.Key()
      {
        var i :| 0 <= i < |rest| && rest[i] == x;
        assert entries[0].Key() != entries[i + 1].Key();
      }
      if e.digest != pin {
        CopyPinnedExported(src, r, rest, pin, images, done);
      } else {
        PutEntryPuts(r, e);
        var next := PutEntry(r, e).value;
        if e.Tag() == "" {
          UntaggedPutExported(r, next, e, images, done);
        } else {
          SourceTagExported(src, r, next, e, images, done);
        }
        CopyPinnedExported(src, next, rest, pin, images, done);
        PinnedResolves(r, next, CopyPinned(next, rest, pin).value, e, rest);
      }
    }
  }

  lemma PinnedResolves(r: Repo, next: Repo, s: Repo, e: Descriptor, rest: seq<Descriptor>)
    requires Puts(r, next, e) && (forall x :: x in rest ==> x.Key() != e.Key())
    requires forall key {:trigger Resolve(IndexOf(s), key)} ::
               (forall x :: x in rest ==> x.Key() != key) ==> Resolve(IndexOf(s), key) == Resolve(IndexOf(next), key)
    ensures Resolve(IndexOf(s), e.Key()) == Some(e)
    ensures forall key {:trigger Resolve(IndexOf(s), key)} ::
              key != e.Key() && (forall x :: x in rest ==> x.Key() != key) ==>
                Resolve(IndexOf(s), key) == Resolve(IndexOf(r), key)
  {
    UpsertIsMapUpdate(IndexOf(r), e, e.Key());
    forall key | key != e.Key() && forall x :: x in rest ==> x.Key() != key
      ensures Resolve(IndexOf(s), key) == Resolve(IndexOf(r), key)
    {
      UpsertIsMapUpdate(IndexOf(r), e, key);
    }
  }

  // ---- one image

  lemma PutTaggedExported(r: Repo, x: ComponentImage, images: set<ComponentImage>, done: set<ComponentImage>)
    requires (forall tag :: tag != "" ==> Apart(ListingsOf(images, tag, ExportEntry))) && Exported(r, images, done) &&
             x in images
    requires x.Tag() != "" && x.SeparatePin().None? && Complete(r, x.digest) == Ok(true)
    ensures PutTagged(r, x.Tag(), ExportEntry(x)).Ok?
    ensures Exported(PutTagged(r, x.Tag(), ExportEntry(x)).value, images, done + {x})
  {
    var tag, e := x.Tag(), ExportEntry(x);
    assert TagReady(r, images, tag);
    PutTaggedStages(r, tag, e);
    var made := Rebuilt(r, tag, e);
    var h := PutBlob(r, Encode(made));
    GrowExported(r, h, images, done);
    var g := PutEntry(h, e).value;
    UntaggedPutExported(h, g, e, images, done);
    GrowsKeepsComplete(r, h, x.digest);
    EntryRecorded(h, g, x, e);
    TagPutExported(g, PutTagged(r, tag, e).value, x, made, images, done);
  }

  lemma PutTaggedStages(r: Repo, tag: string, e: Descriptor)
    requires tag != "" && ReadTaggedIndex(r, tag).Ok? && TagSound(r, tag) && e.digest.Sha256? && e.Tag() == ""
    ensures var made := Rebuilt(r, tag, e);
            var h := PutBlob(r, Encode(made));
            && Shaped(made) && Grows(r, h) && h.indexFile == r.indexFile && Has(h, Sha256(Encode(made)))
            && PutEntry(h, e).Ok? && Puts(h, PutEntry(h, e).value, e)
            && PutTagged(r, tag, e).Ok? && Puts(PutEntry(h, e).value, PutTagged(r, tag, e).value, TagEntry(tag, made))
            && View(PutEntry(h, e).value, tag) == View(r, tag)
  {
    var made := Rebuilt(r, tag, e);
    var h := PutBlob(r, Encode(made));
    PutTwice(h, e, TagEntry(tag, made));
    RebuiltStored(r, tag, e);
    TagGrows(r, h, tag);
    PutEntryPuts(h, e);
    PutKeepsTag(h, PutEntry(h, e).value, e, tag);
  }

  lemma RebuiltStored(r: Repo, tag: string, e: Descriptor)
    requires tag != "" && ReadTaggedIndex(r, tag).Ok?
    ensures var made := Rebuilt(r, tag, e);
            var h := PutBlob(r, Encode(made));
            Shaped(made) && Grows(r, h) && h.indexFile == r.indexFile && Has(h, Sha256(Encode(made)))
  {
  }

  lemma EntryRecorded(m: Repo, h: Repo, x: ComponentImage, e: Descriptor)
    requires Complete(m, x.digest) == Ok(true) && Puts(m, h, e) && e.Key() == ByDigest(x.digest)
    ensures Recorded(h, x)
  {
    GrowsKeepsComplete(m, h, x.digest);
    UpsertIsMapUpdate(IndexOf(m), e, ByDigest(x.digest));
  }

  lemma TagPutExported(g: Repo, s: Repo, x: ComponentImage, made: Index, images: set<ComponentImage>,
                       done: set<ComponentImage>)
    requires (forall tag :: tag != "" ==> Apart(ListingsOf(images, tag, ExportEntry))) && Exported(g, images, done) &&
             x in images
    requires x.Tag() != "" && x.SeparatePin().None? && Shaped(made) && Recorded(g, x)
    requires made.manifests == UpsertManifest(View(g, x.Tag()), ExportEntry(x))
    requires Has(g, Sha256(Encode(made))) && Puts(g, s, TagEntry(x.Tag(), made))
    ensures Exported(s, images, done + {x})
  {
    var tag, e := x.Tag(), TagEntry(x.Tag(), made);
    TaggedIsListed(g, s, x, made);
    TagPutSound(g, s, e);
    assert TagReady(g, images, tag);
    forall i | i in images
      ensures (i.Tag() != "" ==> TagReady(s, images, i.Tag())) && (i in done + {x} ==> Settled(s, i))
    {
      if i.Tag() != tag {
        OtherTagExported(g, s, e, images, done, i);
      } else {
        SameTagExported(g, s, x, made.manifests, images, i);
        if i in done + {x} {
          PutKeepsRecorded(g, s, e, i);
          if i.SeparatePin().Some? {
            GrowsKeepsComplete(g, s, i.SeparatePin().value);
          }
        }
      }
    }
  }

  lemma SameTagExported(g: Repo, s: Repo, x: ComponentImage, ms: seq<Descriptor>, images: set<ComponentImage>,
                        i: ComponentImage)
    requires x in images && i in images && i.Tag() == x.Tag() != "" && Apart(ListingsOf(images, x.Tag(), ExportEntry))
    requires TagReady(g, images, x.Tag()) && TagSound(s, x.Tag()) && ReadTaggedIndex(s, x.Tag()).Ok?
    requires ms == UpsertManifest(View(g, x.Tag()), ExportEntry(x)) && View(s, x.Tag()) == ms
    ensures TagReady(s, images, x.Tag())
    ensures i == x || Listed(i, View(g, x.Tag())) ==> Listed(i, ms)
  {
    var ls := ListingsOf(images, x.Tag(), ExportEntry);
    assert Listing(x, ExportEntry(x)) in ls && Listing(i, ExportEntry(i)) in ls;
    forall l | l in ls
      ensures Ready(l, ms) && Honest(ls, ms) && (Listed(l.image, View(g, x.Tag())) ==> Listed(l.image, ms))
    {
      UpsertKeepsListings(ls, View(g, x.Tag()), l, Listing(x, ExportEntry(x)));
    }
    UpsertLists(Listing(x, ExportEntry(x)), View(g, x.Tag()));
  }

  lemma PinCopied(src: Repo, r: Repo, x: ComponentImage, images: set<ComponentImage>, done: set<ComponentImage>)
    requires Exportable(src, images) && Exported(r, images, done) && x in images
    ensures CopyPin(src, r, x).Ok?
    ensures var s := CopyPin(src, r, x).value;
            && Exported(s, images, done) && Grows(r, s)
            && (x.Tag() != "" && x.SeparatePin().Some? ==>
                  Complete(s, x.SeparatePin().value) == Ok(true) && ReadTaggedIndex(s, x.Tag()).Ok? &&
                  Listed(x, View(s, x.Tag())))
  {
    if x.SeparatePin().Some? {
      var pin := x.SeparatePin().value;
      assert Sourced(src, x) && Cached(src, x);
      CopyBlobsGrows(src, r, [pin]);
      var h := CopyBlobs(src, r, [pin]).value;
      assert pin in [pin];
      GrowExported(r, h, images, done);
      CopyPinnedExported(src, h, IndexOf(src), pin, images, done);
      if x.Tag() != "" {
        PinnedIsWhole(src, CopyPin(src, r, x).value, x, images);
      }
    }
  }

  lemma PinnedIsWhole(src: Repo, s: Repo, x: ComponentImage, images: set<ComponentImage>)
    requires Exportable(src, images) && x in images && x.Tag() != "" && x.SeparatePin().Some?
    requires ReadRepoIndex(src).Ok? && ReadRepoIndex(s).Ok? && Has(s, x.SeparatePin().value)
    requires forall e :: e in IndexOf(src) && e.digest == x.SeparatePin().value ==>
             Resolve(IndexOf(s), e.Key()) == Some(e)
    ensures Complete(s, x.SeparatePin().value) == Ok(true)
    ensures ReadTaggedIndex(s, x.Tag()).Ok? && Listed(x, View(s, x.Tag()))
  {
    assert Sourced(src, x) && Cached(src, x);
    PinnedView(src, s, x);
    SourceViewReady(src, images, x.Tag());
    assert Listing(x, ExportEntry(x)) in ListingsOf(images, x.Tag(), ExportEntry);
  }

  lemma PinnedView(src: Repo, s: Repo, x: ComponentImage)
    requires ReadRepoIndex(src).Ok? && ReadRepoIndex(s).Ok? && x.Tag() != "" && x.SeparatePin().Some? && Sourced(src, x)
    requires Has(s, x.SeparatePin().value)
    requires forall e :: e in IndexOf(src) && e.digest == x.SeparatePin().value ==>
             Resolve(IndexOf(s), e.Key()) == Some(e)
    ensures ReadTaggedIndex(s, x.Tag()) == ReadTaggedIndex(src, x.Tag())
  {
    var e := Resolve(IndexOf(src), ByTag(x.Tag())).value;
    assert IndexOf(src)[KeyIndex(IndexOf(src), ByTag(x.Tag()))] == e && e in IndexOf(src);
  }

  /** Copying one image makes it cached and un-caches none copied before. */
  lemma ImageExported(src: Repo, dst: Repo, x: ComponentImage, images: set<ComponentImage>, done: set<ComponentImage>)
    requires Exportable(src, images) && Exported(dst, images, done) && x in images
    ensures CopyCachedImage(src, dst, x).Ok?
    ensures Exported(CopyCachedImage(src, dst, x).value, images, done + {x})
  {
    assert Cached(src, x);
    CachedIsComplete(src, x);
    ImageBlobsCopied(src, dst, x.digest);
    var r := CopyBlobs(src, dst, ImageBlobs(src.blobs[x.digest].doc, x.digest)).value;
    GrowExported(dst, r, images, done);
    PinCopied(src, r, x, images, done);
    var s := CopyPin(src, r, x).value;
    GrowsKeepsComplete(r, s, x.digest);
    if x.Tag() != "" && x.SeparatePin().None? {
      PutTaggedExported(s, x, images, done);
    } else {
      LastPutExported(s, x, images, done);
    }
  }

  lemma CachedIsComplete(src: Repo, x: ComponentImage)
    requires Cached(src, x)
    ensures Complete(src, x.digest) == Ok(true)
  {
  }

  lemma LastPutExported(s: Repo, x: ComponentImage, images: set<ComponentImage>, done: set<ComponentImage>)
    requires Exported(s, images, done) && x in images && Complete(s, x.digest) == Ok(true)
    requires x.Tag() != "" ==>
        && x.SeparatePin().Some? && Complete(s, x.SeparatePin().value) == Ok(true)
        && ReadTaggedIndex(s, x.Tag()).Ok? && Listed(x, View(s, x.Tag()))
    ensures PutEntry(s, ExportEntry(x)).Ok?
    ensures Exported(PutEntry(s, ExportEntry(x)).value, images, done + {x})
  {
    var e := ExportEntry(x);
    PutEntryPuts(s, e);
    var t := PutEntry(s, e).value;
    UntaggedPutExported(s, t, e, images, done);
    EntryRecorded(s, t, x, e);
    if x.Tag() != "" {
      assert TagReady(s, images, x.Tag());
      PutKeepsTag(s, t, e, x.Tag());
      GrowsKeepsComplete(s, t, x.SeparatePin().value);
    }
  }

  // ---- a selection

  ghost function ImagesOf(images: seq<ComponentImage>, name: string): set<ComponentImage> {
    set i | i in images && RepoName(i) == name
  }

  /** The hypotheses hold in every repository of the source. */
  ghost predicate AllExportable(src: map<string, Repo>, images: seq<ComponentImage>) {
    forall name :: Exportable(RepoAt(src, name), ImagesOf(images, name))
  }

  /** The repository as the first k images leave it. */
  ghost predicate ExportedIn(dst: map<string, Repo>, images: seq<ComponentImage>, k: nat, name: string)
    requires k <= |images|
  {
    Exported(RepoAt(dst, name), ImagesOf(images, name), ImagesOf(images[..k], name))
  }

  lemma SoFarStep(src: map<string, Repo>, images: seq<ComponentImage>, k: nat)
    requires 0 < k <= |images|
    ensures ExportedSoFar(src, images, k) ==
            match ExportedSoFar(src, images, k - 1)
            case Err => Err
            case Ok(mid) => AddImage(src, mid, images[k - 1])
  {
  }

  lemma {:induction false} ExportKeeps(src: map<string, Repo>, images: seq<ComponentImage>, k: nat, name: string)
    requires k <= |images| && AllExportable(src, images)
    ensures ExportedSoFar(src, images, k).Ok?
    ensures ExportedIn(ExportedSoFar(src, images, k).value, images, k, name)
    decreases k
  {
    if k == 0 {
      EmptyExported(ImagesOf(images, name));
      assert ImagesOf(images[..0], name) == {};
    } else {
      var here := RepoName(images[k - 1]);
      ExportKeeps(src, images, k - 1, name);
      ExportKeeps(src, images, k - 1, here);
      SoFarStep(src, images, k);
      assert Exportable(RepoAt(src, here), ImagesOf(images, here));
      ExportOneMore(src, images, k, ExportedSoFar(src, images, k - 1).value, name);
    }
  }

  lemma ExportOneMore(src: map<string, Repo>, images: seq<ComponentImage>, k: nat, mid: map<string, Repo>, name: string)
    requires 0 < k <= |images|
    requires var here := RepoName(images[k - 1]);
             Exportable(RepoAt(src, here), ImagesOf(images, here)) && ExportedIn(mid, images, k - 1, here)
    requires ExportedIn(mid, images, k - 1, name)
    ensures AddImage(src, mid, images[k - 1]).Ok?
    ensures ExportedIn(AddImage(src, mid, images[k - 1]).value, images, k, name)
  {
    var x := images[k - 1];
    var here := RepoName(x);
    assert images[..k] == images[..k - 1] + [x];
    assert x in ImagesOf(images, here);
    assert ImagesOf(images[..k], name) == ImagesOf(images[..k - 1], name) + if name == here then {x} else {};
    ImageExported(RepoAt(src, here), RepoAt(mid, here), x, ImagesOf(images, here), ImagesOf(images[..k - 1], here));
    assert RepoAt(AddImage(src, mid, x).value, name) ==
           if name == here then CopyCachedImage(RepoAt(src, here), RepoAt(mid, here), x).value else RepoAt(mid, name);
  }

  /** Exporting any selection of cached images succeeds, makes all of them cached in the fresh cache,
      and at every point leaves those copied so far cached. */
  lemma ExportedAreCached(src: map<string, Repo>, images: seq<ComponentImage>, k: nat, j: nat)
    requires AllExportable(src, images)
    requires j < k <= |images|
    ensures ExportedSoFar(src, images, k).Ok?
    ensures Cached(RepoAt(ExportedSoFar(src, images, k).value, RepoName(images[j])), images[j])
  {
    var name := RepoName(images[j]);
    ExportKeeps(src, images, k, name);
    assert images[..k][j] == images[j] && images[j] in ImagesOf(images[..k], name);
    SettledIsCached(RepoAt(ExportedSoFar(src, images, k).value, name), images[j]);
  }
}
