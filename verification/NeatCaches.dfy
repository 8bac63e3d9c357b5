/** Caches in which every index entry is one that storing or exporting the images at hand writes. */
module NeatCaches {
  import opened Results
  import opened Oci
  import opened ImageStore
  import opened TagListings
  import opened ImageWrites
  import opened RepoHistory
  import opened BundleExport

  /** Images of one repository that can travel in a bundle: they are compatible; under one tag there is one
      image for an OS and architecture, and one platform for a digest; a separate index is pinned together
      with a tag, has no two matching entries, and lists the image under its own platform or none. */
  ghost predicate Portable(images: set<ComponentImage>) {
    && Compatible(images)
    && (forall i :: i in images ==> i.Tag() != "" || i.SeparatePin().None?)
    && (forall i, j | i in images && j in images && i.Tag() == j.Tag() != "" ::
          if i.digest == j.digest then i.platform == j.platform else !MatchesPlatform(i, ImageEntry(j)))
    && (forall i :: i in images && i.SeparatePin().Some? ==> FairPin(i, i.SeparatePin().value.content.doc.manifests))
  }

  ghost predicate FairPin(i: ComponentImage, ms: seq<Descriptor>) {
    && NoMatchingPairs(ms)
    && forall x :: x in ms && x.digest == i.digest && x.platform.Some? ==> MatchesPlatform(i, x)
  }

  // ---- what may stand in an index

  /** The entry lists an image of the tag under its own platform or none. */
  ghost predicate Owned(images: set<ComponentImage>, tag: string, x: Descriptor) {
    exists j :: j in images && j.Tag() == tag && j.digest == x.digest && (x.platform.Some? ==> MatchesPlatform(j, x))
  }

  ghost predicate OwnList(images: set<ComponentImage>, tag: string, ms: seq<Descriptor>) {
    NoMatchingPairs(ms) && forall x :: x in ms ==> Owned(images, tag, x)
  }

  /** The tag names what its images want: their pinned index, or an index of their own. */
  ghost predicate Names(images: set<ComponentImage>, j: ComponentImage, d: Digest) {
    if j.SeparatePin().Some? then d == j.SeparatePin().value
    else
      && d.Sha256? && d.content.Json? && d.content.doc.manifests != []
      && OwnList(images, j.Tag(), d.content.doc.manifests)
  }

  ghost predicate Rightful(images: set<ComponentImage>, e: Descriptor) {
    && e.digest.Sha256? && e.size == Length(e.digest.content)
    && (e.Tag() != "" ==> exists j :: j in images && j.Tag() == e.Tag() && Names(images, j, e.digest))
  }

  /** Blobs hold what their names promise, keys are unique, and every entry is rightful and has its blob. */
  ghost predicate Neat(r: Repo, images: set<ComponentImage>) {
    && ReadRepoIndex(r).Ok? && UniqueKeys(IndexOf(r))
    && (forall d :: d in r.blobs ==> Has(r, d))
    && (forall e :: e in IndexOf(r) ==> Rightful(images, e) && Has(r, e.digest))
  }

  lemma EmptyIsNeat(images: set<ComponentImage>)
    ensures Neat(EMPTY_REPO, images)
  {
  }

  lemma GrowNeat(r: Repo, s: Repo, images: set<ComponentImage>)
    requires Neat(r, images) && Grows(r, s) && s.indexFile == r.indexFile
    ensures Neat(s, images)
  {
  }

  lemma PutNeat(r: Repo, s: Repo, e: Descriptor, images: set<ComponentImage>)
    requires Neat(r, images) && Puts(r, s, e) && Rightful(images, e) && Has(r, e.digest)
    ensures Neat(s, images)
  {
    UpsertIsMapUpdate(IndexOf(r), e, e.Key());
    forall x | x in IndexOf(s)
      ensures Rightful(images, x) && Has(s, x.digest)
    {
      assert x == e || x in IndexOf(r);
    }
  }

  lemma RemoteIsRightful(images: set<ComponentImage>, d: Digest, p: Option<Platform>)
    requires d.Sha256?
    ensures Rightful(images, RemoteDescriptor(d, p))
  {
  }

  // ---- tags

  /** An entry in the index under the tag decides what the tag reads. */
  lemma NeatTag(r: Repo, images: set<ComponentImage>, i: ComponentImage)
    requires Neat(r, images) && Compatible(images) && i in images && i.Tag() != ""
    ensures TagSound(r, i.Tag())
    ensures var e := Resolve(IndexOf(r), ByTag(i.Tag()));
            e.Some? ==> Names(images, i, e.value.digest) && Has(r, e.value.digest)
  {
    var e := Resolve(IndexOf(r), ByTag(i.Tag()));
    if e.Some? {
      assert e.value == IndexOf(r)[KeyIndex(IndexOf(r), ByTag(i.Tag()))] && e.value in IndexOf(r);
      var j :| j in images && j.Tag() == e.value.Tag() && Names(images, j, e.value.digest);
      assert i.SeparatePin() == j.SeparatePin();
    }
  }

  lemma OwnView(r: Repo, images: set<ComponentImage>, i: ComponentImage)
    requires Neat(r, images) && Compatible(images) && i in images && i.Tag() != "" && i.SeparatePin().None?
    ensures ReadTaggedIndex(r, i.Tag()).Ok? && OwnList(images, i.Tag(), View(r, i.Tag()))
  {
    NeatTag(r, images, i);
  }

  /** Two entries of the tag's images match only when they carry the same digest. */
  lemma OwnedMatch(images: set<ComponentImage>, tag: string, x: Descriptor, y: Descriptor)
    requires Portable(images) && tag != "" && Owned(images, tag, x) && Owned(images, tag, y) && SameManifest(x, y)
    ensures x.digest == y.digest
  {
    var i :| i in images && i.Tag() == tag && i.digest == x.digest && (x.platform.Some? ==> MatchesPlatform(i, x));
    var j :| j in images && j.Tag() == tag && j.digest == y.digest && (y.platform.Some? ==> MatchesPlatform(j, y));
    assert SamePlatform(x.platform, y.platform) ==> MatchesPlatform(i, ImageEntry(j));
  }

  lemma OwnListGrows(images: set<ComponentImage>, tag: string, ms: seq<Descriptor>, e: Descriptor)
    requires Portable(images) && tag != "" && OwnList(images, tag, ms) && Owned(images, tag, e)
    ensures OwnList(images, tag, UpsertManifest(ms, e)) && UpsertManifest(ms, e) != []
  {
    forall a, b | a in ms && b in ms && SameManifest(a, e) && SameManifest(e, b)
      ensures SameManifest(a, b)
    {
      OwnedMatch(images, tag, a, e);
      OwnedMatch(images, tag, e, b);
    }
    TransitiveMatchKeepsApart(ms, e);
    assert forall x :: x in UpsertManifest(ms, e) ==> x == e || x in ms;
  }

  lemma EntryOwned(images: set<ComponentImage>, i: ComponentImage, e: Descriptor)
    requires i in images && (e == ImageEntry(i) || e == ExportEntry(i))
    ensures Owned(images, i.Tag(), e)
  {
    assert e.platform.Some? ==> MatchesPlatform(i, e);
  }

  lemma TagEntryRightful(r: Repo, images: set<ComponentImage>, i: ComponentImage, e: Descriptor)
    requires Neat(r, images) && Portable(images) && i in images && i.Tag() != "" && i.SeparatePin().None?
    requires e == ImageEntry(i) || e == ExportEntry(i)
    ensures ReadTaggedIndex(r, i.Tag()).Ok? && Rightful(images, TagEntry(i.Tag(), Rebuilt(r, i.Tag(), e)))
  {
    OwnView(r, images, i);
    EntryOwned(images, i, e);
    OwnListGrows(images, i.Tag(), View(r, i.Tag()), e);
    assert Names(images, i, TagEntry(i.Tag(), Rebuilt(r, i.Tag(), e)).digest);
  }

  // ---- storing an image

  lemma RecordingNeat(x: ComponentImage, m: Repo, s: Repo, full: bool, images: set<ComponentImage>)
    requires Portable(images) && Neat(m, images) && x in images && Recording(x, m, s, full)
    requires Complete(m, x.digest) == Ok(true)
    requires x.SeparatePin().Some? ==> Has(m, x.SeparatePin().value)
    ensures Neat(s, images)
  {
    var entry := ImageEntry(x);
    RemoteIsRightful(images, x.digest, ParsePlatform(x.platform));
    if x.SeparatePin().Some? {
      PinRightful(x, images);
      if full {
        var h :| Puts(m, h, entry) && Puts(h, s, PinEntry(x));
        PutNeat(m, h, entry, images);
        PutNeat(h, s, PinEntry(x), images);
      } else if s != m {
        PutNeat(m, s, entry, images);
      }
    } else if x.Tag() == "" {
      if full {
        PutNeat(m, s, entry, images);
      }
    } else if full || s != m {
      TagRecordingNeat(x, m, s, full, images);
    }
  }

  lemma PinRightful(x: ComponentImage, images: set<ComponentImage>)
    requires Portable(images) && x in images && x.SeparatePin().Some?
    ensures x.Tag() != "" && Rightful(images, PinEntry(x))
  {
    assert Names(images, x, PinEntry(x).digest);
  }

  lemma TagRecordingNeat(x: ComponentImage, m: Repo, s: Repo, full: bool, images: set<ComponentImage>)
    requires Portable(images) && Neat(m, images) && x in images && Recording(x, m, s, full) && (full || s != m)
    requires x.SeparatePin().None? && x.Tag() != "" && Complete(m, x.digest) == Ok(true)
    ensures Neat(s, images)
  {
    var made := NewTagIndex(m, x);
    NewTagIndexShape(m, x);
    var h := PutBlob(m, Encode(made));
    GrowNeat(m, h, images);
    if full {
      var g :| Puts(h, g, ImageEntry(x)) && Puts(g, s, TagEntry(x.Tag(), made));
      RemoteIsRightful(images, x.digest, ParsePlatform(x.platform));
      TagEntryRightful(m, images, x, ImageEntry(x));
      PutNeat(h, g, ImageEntry(x), images);
      PutNeat(g, s, TagEntry(x.Tag(), made), images);
    }
  }

  /** At every point while an image is stored the repository is neat. */
  lemma StoringNeat(x: ComponentImage, r: Repo, k: nat, images: set<ComponentImage>)
    requires Portable(images) && Neat(r, images) && x in images
    requires k <= |Program(x)| && Prefix(x, r, k).Ok?
    ensures Neat(Prefix(x, r, k).value.0, images)
  {
    if k < |FetchOps(x)| {
      FetchOpsFetch(x);
      assert Program(x)[..k] == FetchOps(x)[..k];
      FetchingGrows(FetchOps(x)[..k], r, NO_LOCAL);
      GrowNeat(r, Prefix(x, r, k).value.0, images);
    } else {
      var j := k - |FetchOps(x)|;
      RecordingPart(x, r, k);
      var (m, y) := Run(FetchOps(x), r, NO_LOCAL).value;
      GrowNeat(r, m, images);
      RecordingStages(x, m, y, j);
      RecordingNeat(x, m, Prefix(x, r, k).value.0, j == |RecordOps(x)|, images);
    }
  }

  // ---- copying an image

  lemma {:induction false} CopyPinnedNeat(src: Repo, r: Repo, entries: seq<Descriptor>, pin: Digest,
                                          images: set<ComponentImage>)
    requires Neat(src, images) && Neat(r, images) && Has(r, pin) && CopyPinned(r, entries, pin).Ok?
    requires forall e :: e in entries ==> e in IndexOf(src)
    ensures Neat(CopyPinned(r, entries, pin).value, images) && Grows(r, CopyPinned(r, entries, pin).value)
    decreases |entries|
  {
    if entries != [] {
      var e := entries[0];
      assert e in entries;
      if e.digest != pin {
        CopyPinnedNeat(src, r, entries[1..], pin, images);
      } else {
        PutEntryPuts(r, e);
        var next := PutEntry(r, e).value;
        PutNeat(r, next, e, images);
        CopyPinnedNeat(src, next, entries[1..], pin, images);
      }
    }
  }

  lemma CopyPinNeat(src: Repo, r: Repo, x: ComponentImage, images: set<ComponentImage>)
    requires Neat(src, images) && Neat(r, images) && CopyPin(src, r, x).Ok?
    ensures Neat(CopyPin(src, r, x).value, images) && Grows(r, CopyPin(src, r, x).value)
  {
    if x.SeparatePin().Some? {
      var pin := x.SeparatePin().value;
      assert pin in src.blobs && [pin][0] == pin && [pin][1..] == [];
      CopyBlobsGrows(src, r, [pin]);
      var h := CopyBlobs(src, r, [pin]).value;
      GrowNeat(r, h, images);
      assert pin in [pin] && Has(h, pin);
      CopyPinnedNeat(src, h, IndexOf(src), pin, images);
    }
  }

  lemma PutTaggedNeat(r: Repo, x: ComponentImage, images: set<ComponentImage>)
    requires Portable(images) && Neat(r, images) && x in images && x.Tag() != "" && x.SeparatePin().None?
    requires Complete(r, x.digest) == Ok(true)
    ensures PutTagged(r, x.Tag(), ExportEntry(x)).Ok?
    ensures Neat(PutTagged(r, x.Tag(), ExportEntry(x)).value, images)
  {
    var tag, e := x.Tag(), ExportEntry(x);
    TagEntryRightful(r, images, x, e);
    NeatTag(r, images, x);
    PutTaggedStages(r, tag, e);
    var made := Rebuilt(r, tag, e);
    var h := PutBlob(r, Encode(made));
    GrowNeat(r, h, images);
    RemoteIsRightful(images, x.digest, e.platform);
    PutNeat(h, PutEntry(h, e).value, e, images);
    PutNeat(PutEntry(h, e).value, PutTagged(r, tag, e).value, TagEntry(tag, made), images);
  }

  /** Copying an image keeps the copy neat. */
  lemma CopyNeat(src: Repo, dst: Repo, x: ComponentImage, images: set<ComponentImage>)
    requires Portable(images) && Neat(src, images) && Neat(dst, images) && x in images
    requires Complete(src, x.digest) == Ok(true) && CopyCachedImage(src, dst, x).Ok?
    ensures Neat(CopyCachedImage(src, dst, x).value, images)
  {
    ImageBlobsCopied(src, dst, x.digest);
    var r := CopyBlobs(src, dst, ImageBlobs(src.blobs[x.digest].doc, x.digest)).value;
    GrowNeat(dst, r, images);
    CopyPinNeat(src, r, x, images);
    var s := CopyPin(src, r, x).value;
    GrowsKeepsComplete(r, s, x.digest);
    if x.Tag() != "" && x.SeparatePin().None? {
      PutTaggedNeat(s, x, images);
    } else {
      PutEntryPuts(s, ExportEntry(x));
      RemoteIsRightful(images, x.digest, ExportEntry(x).platform);
      PutNeat(s, PutEntry(s, ExportEntry(x)).value, ExportEntry(x), images);
    }
  }

  // ---- a neat repository that has the images can be exported

  lemma NeatIsSourced(r: Repo, images: set<ComponentImage>, i: ComponentImage)
    requires Portable(images) && Neat(r, images) && i in images && Cached(r, i)
    ensures Sourced(r, i)
  {
    if i.SeparatePin().Some? {
      NeatTag(r, images, i);
    }
  }

  lemma OwnPlatform(images: set<ComponentImage>, i: ComponentImage, x: Descriptor)
    requires Portable(images) && i in images && i.Tag() != "" && Owned(images, i.Tag(), x)
    requires x.digest == i.digest && x.platform.Some?
    ensures MatchesPlatform(i, x)
  {
    var j :| j in images && j.Tag() == i.Tag() && j.digest == x.digest && (x.platform.Some? ==> MatchesPlatform(j, x));
    assert i.platform == j.platform;
  }

  lemma PinnedContent(r: Repo, i: ComponentImage, e: Descriptor)
    requires i.SeparatePin() == Some(e.digest) && IsImageIndex(e.digest) && Has(r, e.digest)
    requires Listed(i, e.digest.content.doc.manifests)
    ensures TaggedContent(r, e).Ok? && TaggedContent(r, e).value.manifests == e.digest.content.doc.manifests
  {
  }

  lemma NeatView(r: Repo, images: set<ComponentImage>, i: ComponentImage, x: Descriptor)
    requires Portable(images) && Neat(r, images) && i in images && i.Tag() != "" && Cached(r, i)
    requires x in View(r, i.Tag()) && x.digest == i.digest && x.platform.Some?
    ensures MatchesPlatform(i, x)
  {
    if i.SeparatePin().None? {
      OwnView(r, images, i);
      OwnPlatform(images, i, x);
    } else {
      NeatTag(r, images, i);
      var e := Resolve(IndexOf(r), ByTag(i.Tag()));
      assert e.Some?;
      PinnedContent(r, i, e.value);
      assert FairPin(i, i.SeparatePin().value.content.doc.manifests);
    }
  }

  lemma SelectionApart(images: set<ComponentImage>, chosen: set<ComponentImage>, tag: string)
    requires Portable(images) && chosen <= images && tag != ""
    ensures Apart(ListingsOf(chosen, tag, ExportEntry))
  {
    var ls := ListingsOf(chosen, tag, ExportEntry);
    forall a, b | a in ls && b in ls && a.image.digest != b.image.digest
      ensures !MatchesPlatform(a.image, b.entry)
    {
      assert !MatchesPlatform(a.image, ImageEntry(b.image));
    }
  }

  lemma NeatIsExportable(r: Repo, images: set<ComponentImage>, chosen: set<ComponentImage>)
    requires Portable(images) && Neat(r, images) && chosen <= images && forall i :: i in chosen ==> Cached(r, i)
    ensures Exportable(r, chosen)
  {
    forall i | i in chosen
      ensures Sourced(r, i)
    {
      NeatIsSourced(r, images, i);
    }
    forall tag | tag != ""
      ensures Apart(ListingsOf(chosen, tag, ExportEntry))
    {
      SelectionApart(images, chosen, tag);
    }
    forall tag, i, k | tag != "" && i in chosen && i.Tag() == tag && 0 <= k < |View(r, tag)| &&
      View(r, tag)[k].digest == i.digest && View(r, tag)[k].platform.Some?
      ensures MatchesPlatform(i, View(r, tag)[k])
    {
      NeatView(r, images, i, View(r, tag)[k]);
    }
  }
}
