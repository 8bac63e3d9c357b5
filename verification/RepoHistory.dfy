/** What a repository keeps while several images are stored in it, one operation at a time. */
module RepoHistory {
  import opened Results
  import opened Oci
  import opened ImageStore
  import opened TagListings
  import opened ImageWrites

  ghost function ListingOf(image: ComponentImage): Listing {
    Listing(image, ImageEntry(image))
  }

  /** The images that share a repository do not get in each other's way: under one tag they all pin the
      same separate index, which lists each of them first, or none does and no two of them compete for
      an OS and architecture. */
  ghost predicate Compatible(images: set<ComponentImage>) {
    && (forall i :: i in images ==> Ordinary(i))
    && (forall i, j :: i in images && j in images && i.Tag() == j.Tag() != "" ==> i.SeparatePin() == j.SeparatePin())
    && (forall i :: i in images && i.Tag() != "" && i.SeparatePin().Some? ==>
          Listed(i, i.SeparatePin().value.content.doc.manifests))
    && (forall i, j | i in images && j in images && i.Tag() == j.Tag() != "" && i.SeparatePin().None? ::
          i.digest != j.digest ==> !MatchesPlatform(i, ImageEntry(j)))
  }

  lemma ListingsApart(images: set<ComponentImage>, tag: string)
    requires Compatible(images) && tag != ""
    requires exists i :: i in images && i.Tag() == tag && i.SeparatePin().None?
    ensures Apart(ListingsOf(images, tag, ImageEntry))
  {
    var i :| i in images && i.Tag() == tag && i.SeparatePin().None?;
    forall a, b | a in ListingsOf(images, tag, ImageEntry) && b in ListingsOf(images, tag, ImageEntry) &&
      a.image.digest != b.image.digest
      ensures !MatchesPlatform(a.image, b.entry)
    {
      assert a.image.SeparatePin() == i.SeparatePin();
    }
  }

  /** The tag's image index is stored and intact. */
  ghost predicate TagSound(r: Repo, tag: string) {
    var e := Resolve(IndexOf(r), ByTag(tag));
    e.Some? ==> Has(r, e.value.digest)
  }

  /** Cached, in a way that storing a compatible image cannot undo. */
  ghost predicate Settled(r: Repo, i: ComponentImage) {
    && Recorded(r, i)
    && (i.Tag() != "" ==> ReadTaggedIndex(r, i.Tag()).Ok? && Listed(i, View(r, i.Tag())))
    && (i.Tag() != "" && i.SeparatePin().Some? ==> Complete(r, i.SeparatePin().value) == Ok(true))
  }

  lemma SettledIsCached(r: Repo, i: ComponentImage)
    requires Settled(r, i)
    ensures Cached(r, i)
  {
    var k := KeyIndex(IndexOf(r), ByDigest(i.digest));
    assert IndexOf(r)[k].digest == i.digest;
  }

  /** What must hold of the repository before an image is stored for the store to count. */
  ghost predicate Open(r: Repo, images: set<ComponentImage>, i: ComponentImage) {
    if i.Tag() != "" then
      && TagSound(r, i.Tag())
      && (i.SeparatePin().None? ==>
            Honest(ListingsOf(images, i.Tag(), ImageEntry), View(r, i.Tag())) && Ready(ListingOf(i), View(r, i.Tag())))
    else
      i.SeparatePin().Some? && ReadRepoIndex(r).Ok? ==> Resolve(IndexOf(r), ByDigest(i.digest)).Some?
  }

  ghost predicate Keeps(r: Repo, images: set<ComponentImage>, done: set<ComponentImage>) {
    && done <= images
    && (forall i :: i in images ==> Open(r, images, i))
    && (forall i :: i in done ==> Settled(r, i))
  }

  // ---- single effects

  lemma GrowKeeps(r: Repo, s: Repo, images: set<ComponentImage>, done: set<ComponentImage>)
    requires Keeps(r, images, done) && Grows(r, s) && s.indexFile == r.indexFile
    ensures Keeps(s, images, done)
  {
    forall i | i in images
      ensures Open(s, images, i) && (i in done ==> Settled(s, i))
    {
      assert Open(r, images, i);
      if i.Tag() != "" {
        TagGrows(r, s, i.Tag());
      }
      if i in done {
        SettledGrows(r, s, i);
      }
    }
  }

  lemma TagGrows(r: Repo, s: Repo, tag: string)
    requires tag != "" && TagSound(r, tag) && Grows(r, s) && s.indexFile == r.indexFile
    ensures TagSound(s, tag) && ReadTaggedIndex(s, tag) == ReadTaggedIndex(r, tag)
  {
  }

  /** The exact condition for a tag, on the image index the tag names before the store. */
  lemma StoredIsCached(r: Repo, image: ComponentImage)
    requires Ordinary(image) && WriteImage(r, image).Ok?
    requires image.Tag() != "" && image.SeparatePin().None? && TagSound(r, image.Tag())
    ensures var view := View(r, image.Tag());
            Cached(WriteImage(r, image).value, image) <==>
            forall k :: 0 <= k < MatchIndex(view, ImageEntry(image)) ==> !MatchesPlatform(image, view[k])
  {
    WriteSplits(r, image);
    FetchedImage(image, r, NO_LOCAL);
    TagGrows(r, AfterFetch(r, image), image.Tag());
    WrittenIsCached(r, image);
  }

  lemma SettledGrows(r: Repo, s: Repo, i: ComponentImage)
    requires Settled(r, i) && Grows(r, s) && ReadRepoIndex(s).Ok?
    requires Resolve(IndexOf(s), ByDigest(i.digest)).Some?
    requires i.Tag() != "" ==> ReadTaggedIndex(s, i.Tag()) == ReadTaggedIndex(r, i.Tag())
    ensures Settled(s, i)
  {
    GrowsKeepsComplete(r, s, i.digest);
    if i.Tag() != "" && i.SeparatePin().Some? {
      GrowsKeepsComplete(r, s, i.SeparatePin().value);
    }
  }

  /** Putting an entry leaves every other tag as it was. */
  lemma PutKeepsTag(r: Repo, s: Repo, e: Descriptor, tag: string)
    requires tag != "" && Puts(r, s, e) && e.Tag() != tag && TagSound(r, tag)
    ensures TagSound(s, tag) && ReadTaggedIndex(s, tag) == ReadTaggedIndex(r, tag)
  {
    UpsertIsMapUpdate(IndexOf(r), e, ByTag(tag));
  }

  lemma PutKeepsOpen(r: Repo, s: Repo, e: Descriptor, images: set<ComponentImage>, i: ComponentImage)
    requires Puts(r, s, e) && Open(r, images, i) && (e.Tag() != i.Tag() || i.Tag() == "")
    ensures Open(s, images, i)
    ensures i.Tag() != "" ==> ReadTaggedIndex(s, i.Tag()) == ReadTaggedIndex(r, i.Tag())
  {
    if i.Tag() != "" {
      PutKeepsTag(r, s, e, i.Tag());
    } else {
      UpsertIsMapUpdate(IndexOf(r), e, ByDigest(i.digest));
    }
  }

  lemma PutKeepsSettled(r: Repo, s: Repo, e: Descriptor, images: set<ComponentImage>, i: ComponentImage)
    requires Puts(r, s, e) && Open(r, images, i) && Settled(r, i) && (e.Tag() != i.Tag() || i.Tag() == "")
    ensures Settled(s, i)
  {
    PutKeepsOpen(r, s, e, images, i);
    UpsertIsMapUpdate(IndexOf(r), e, ByDigest(i.digest));
    SettledGrows(r, s, i);
  }

  lemma UntaggedPutKeeps(r: Repo, s: Repo, e: Descriptor, images: set<ComponentImage>, done: set<ComponentImage>)
    requires Keeps(r, images, done) && Puts(r, s, e) && e.Tag() == ""
    ensures Keeps(s, images, done)
  {
    forall i | i in images
      ensures Open(s, images, i) && (i in done ==> Settled(s, i))
    {
      PutKeepsOpen(r, s, e, images, i);
      if i in done {
        PutKeepsSettled(r, s, e, images, i);
      }
    }
  }

  /** Publishing the rebuilt index of a tag. */
  lemma TagPutKeeps(g: Repo, s: Repo, x: ComponentImage, made: Index,
                    images: set<ComponentImage>, done: set<ComponentImage>)
    requires Compatible(images) && Keeps(g, images, done) && x in images
    requires x.SeparatePin().None? && x.Tag() != "" && Shaped(made)
    requires made.manifests == UpsertManifest(View(g, x.Tag()), ImageEntry(x)) && ReadTaggedIndex(g, x.Tag()).Ok?
    requires Recorded(g, x) && Has(g, Sha256(Encode(made))) && Puts(g, s, TagEntry(x.Tag(), made))
    ensures Keeps(s, images, done + {x})
  {
    TaggedIsListed(g, s, x, made);
    TagPutSound(g, s, TagEntry(x.Tag(), made));
    forall i | i in images
      ensures Open(s, images, i) && (i in done + {x} ==> Settled(s, i))
    {
      TagPutKeepsOne(g, s, x, made, images, done, i);
    }
  }

  lemma TagPutKeepsOne(g: Repo, s: Repo, x: ComponentImage, made: Index,
                       images: set<ComponentImage>, done: set<ComponentImage>, i: ComponentImage)
    requires Compatible(images) && Keeps(g, images, done) && x in images && i in images
    requires x.SeparatePin().None? && x.Tag() != "" && Puts(g, s, TagEntry(x.Tag(), made))
    requires made.manifests == UpsertManifest(View(g, x.Tag()), ImageEntry(x)) &&
             ReadTaggedIndex(s, x.Tag()) == Ok(made)
    requires TagSound(s, x.Tag()) && Recorded(g, x)
    ensures Open(s, images, i) && (i in done + {x} ==> Settled(s, i))
  {
    var e := TagEntry(x.Tag(), made);
    if i.Tag() != x.Tag() {
      OtherTagKeeps(g, s, e, images, done, i);
    } else {
      assert Open(g, images, i) && Open(g, images, x);
      SameTagKeeps(g, s, x, made.manifests, images, i);
      if i in done + {x} {
        assert i != x ==> Settled(g, i);
        SameTagSettles(g, s, e, i);
      }
    }
  }

  lemma SameTagSettles(g: Repo, s: Repo, e: Descriptor, i: ComponentImage)
    requires Recorded(g, i) && Puts(g, s, e) && i.SeparatePin().None?
    requires i.Tag() != "" ==> ReadTaggedIndex(s, i.Tag()).Ok? && Listed(i, View(s, i.Tag()))
    ensures Settled(s, i)
  {
    PutKeepsRecorded(g, s, e, i);
  }

  lemma TagPutSound(g: Repo, s: Repo, e: Descriptor)
    requires e.Tag() != "" && Puts(g, s, e) && Has(g, e.digest)
    ensures TagSound(s, e.Tag())
  {
    ReadTagBack(g, s, e);
    UpsertIsMapUpdate(IndexOf(g), e, ByTag(e.Tag()));
  }

  lemma OtherTagKeeps(g: Repo, s: Repo, e: Descriptor, images: set<ComponentImage>, done: set<ComponentImage>,
                      i: ComponentImage)
    requires Keeps(g, images, done) && i in images && e.Tag() != i.Tag() && Puts(g, s, e)
    ensures Open(s, images, i) && (i in done ==> Settled(s, i))
  {
    assert Open(g, images, i);
    PutKeepsOpen(g, s, e, images, i);
    if i in done {
      PutKeepsSettled(g, s, e, images, i);
    }
  }

  lemma SameTagKeeps(g: Repo, s: Repo, x: ComponentImage, ms: seq<Descriptor>,
                     images: set<ComponentImage>, i: ComponentImage)
    requires Compatible(images) && x in images && i in images && i.Tag() == x.Tag() != "" && x.SeparatePin().None?
    requires Open(g, images, i) && Open(g, images, x) && TagSound(s, x.Tag())
    requires ms == UpsertManifest(View(g, x.Tag()), ImageEntry(x)) && View(s, x.Tag()) == ms
    ensures Open(s, images, i)
    ensures i == x || Listed(i, View(g, x.Tag())) ==> Listed(i, ms)
    ensures i.SeparatePin().None?
  {
    var ls := ListingsOf(images, x.Tag(), ImageEntry);
    ListingsApart(images, x.Tag());
    assert i.SeparatePin() == x.SeparatePin();
    assert ListingOf(i) in ls && ListingOf(x) in ls;
    UpsertKeepsListings(ls, View(g, x.Tag()), ListingOf(i), ListingOf(x));
    if i == x {
      UpsertLists(ListingOf(x), View(g, x.Tag()));
    }
  }

  /** Pointing a tag at the upstream index. */
  lemma PinPutKeeps(g: Repo, s: Repo, x: ComponentImage, images: set<ComponentImage>, done: set<ComponentImage>)
    requires Compatible(images) && Keeps(g, images, done) && x in images
    requires x.SeparatePin().Some? && x.Tag() != ""
    requires Recorded(g, x) && Has(g, x.SeparatePin().value) && Puts(g, s, PinEntry(x))
    ensures Keeps(s, images, done + {x})
  {
    forall i | i in images
      ensures Open(s, images, i) && (i in done + {x} ==> Settled(s, i))
    {
      PinPutKeepsOne(g, s, x, images, done, i);
    }
  }

  lemma PinPutKeepsOne(g: Repo, s: Repo, x: ComponentImage, images: set<ComponentImage>, done: set<ComponentImage>,
                       i: ComponentImage)
    requires Compatible(images) && Keeps(g, images, done) && x in images && i in images
    requires x.SeparatePin().Some? && x.Tag() != ""
    requires Recorded(g, x) && Has(g, x.SeparatePin().value) && Puts(g, s, PinEntry(x))
    ensures Open(s, images, i) && (i in done + {x} ==> Settled(s, i))
  {
    if i.Tag() != x.Tag() {
      OtherTagKeeps(g, s, PinEntry(x), images, done, i);
    } else {
      assert i.SeparatePin() == x.SeparatePin();
      TagPutSound(g, s, PinEntry(x));
      if i in done + {x} {
        SamePinSettles(g, s, x, images, i);
      }
    }
  }

  lemma SamePinSettles(g: Repo, s: Repo, x: ComponentImage, images: set<ComponentImage>, i: ComponentImage)
    requires Compatible(images) && x in images && i in images && i.Tag() == x.Tag() != ""
    requires x.SeparatePin().Some? && i.SeparatePin() == x.SeparatePin()
    requires Recorded(g, i) && Has(g, x.SeparatePin().value) && Puts(g, s, PinEntry(x))
    ensures Settled(s, i)
  {
    assert PinEntry(i) == PinEntry(x);
    PinnedIsListed(g, s, i);
    PutKeepsRecorded(g, s, PinEntry(x), i);
  }

  // ---- whole programs

  lemma RecordingKeeps(x: ComponentImage, m: Repo, s: Repo, full: bool,
                       images: set<ComponentImage>, done: set<ComponentImage>)
    requires Compatible(images) && Keeps(m, images, done) && x in images && Recording(x, m, s, full)
    requires Complete(m, x.digest) == Ok(true)
    requires x.SeparatePin().Some? ==> Has(m, x.SeparatePin().value)
    ensures Keeps(s, images, if full then done + {x} else done)
  {
    var entry := ImageEntry(x);
    if x.SeparatePin().Some? && x.Tag() != "" {
      if full {
        var h :| Puts(m, h, entry) && Puts(h, s, PinEntry(x));
        UntaggedPutKeeps(m, h, entry, images, done);
        UntaggedRecorded(m, h, x);
        PinPutKeeps(h, s, x, images, done);
      } else if s != m {
        UntaggedPutKeeps(m, s, entry, images, done);
      }
    } else if x.Tag() == "" {
      if full {
        PlainPutKeeps(x, m, s, if x.SeparatePin().Some? then PinEntry(x) else entry, images, done);
      }
    } else if s != m || full {
      TagRecordingKeeps(x, m, s, full, images, done);
    }
  }

  lemma PlainPutKeeps(x: ComponentImage, m: Repo, s: Repo, e: Descriptor,
                      images: set<ComponentImage>, done: set<ComponentImage>)
    requires Ordinary(x) && Keeps(m, images, done) && x in images && Puts(m, s, e) && x.Tag() == ""
    requires e == if x.SeparatePin().Some? then PinEntry(x) else ImageEntry(x)
    requires Complete(m, x.digest) == Ok(true)
    requires x.SeparatePin().Some? ==> Has(m, x.SeparatePin().value)
    ensures Keeps(s, images, done + {x})
  {
    UntaggedPutKeeps(m, s, e, images, done);
    assert Open(m, images, x);
    PlainPutSettles(x, m, s, e, images);
  }

  lemma PlainPutSettles(x: ComponentImage, m: Repo, s: Repo, e: Descriptor, images: set<ComponentImage>)
    requires x.Tag() == "" && Ordinary(x) && Open(m, images, x) && Puts(m, s, e)
    requires e == if x.SeparatePin().Some? then PinEntry(x) else ImageEntry(x)
    requires Complete(m, x.digest) == Ok(true)
    requires x.SeparatePin().Some? ==> Has(m, x.SeparatePin().value)
    ensures Settled(s, x)
  {
    GrowsKeepsComplete(m, s, x.digest);
    UpsertIsMapUpdate(IndexOf(m), e, ByDigest(x.digest));
  }

  lemma TagRecordingKeeps(x: ComponentImage, m: Repo, s: Repo, full: bool,
                          images: set<ComponentImage>, done: set<ComponentImage>)
    requires Compatible(images) && Keeps(m, images, done) && x in images
    requires x.SeparatePin().None? && x.Tag() != "" && Recording(x, m, s, full) && (s != m || full)
    requires Complete(m, x.digest) == Ok(true)
    ensures Keeps(s, images, if full then done + {x} else done)
  {
    var made := NewTagIndex(m, x);
    NewTagIndexShape(m, x);
    var h := PutBlob(m, Encode(made));
    GrowKeeps(m, h, images, done);
    if full {
      var g :| Puts(h, g, ImageEntry(x)) && Puts(g, s, TagEntry(x.Tag(), made));
      GrowsKeepsComplete(m, h, x.digest);
      UntaggedRecorded(h, g, x);
      UntaggedPutKeeps(h, g, ImageEntry(x), images, done);
      TagUntouched(x, m, h, g, images);
      TagPutKeeps(g, s, x, made, images, done);
    }
  }

  lemma TagUntouched(x: ComponentImage, m: Repo, h: Repo, g: Repo, images: set<ComponentImage>)
    requires x.Tag() != "" && Open(m, images, x) && Grows(m, h) && h.indexFile == m.indexFile
    requires Puts(h, g, ImageEntry(x))
    ensures ReadTaggedIndex(g, x.Tag()) == ReadTaggedIndex(m, x.Tag())
  {
    TagGrows(m, h, x.Tag());
    PutKeepsTag(h, g, ImageEntry(x), x.Tag());
  }

  /** At every point while an image is stored, the images stored before stay cached, and the others can
      still be stored; at the end the image is cached too. */
  lemma StoringKeeps(x: ComponentImage, r: Repo, k: nat, images: set<ComponentImage>, done: set<ComponentImage>)
    requires Compatible(images) && Keeps(r, images, done) && x in images
    requires k <= |Program(x)| && Prefix(x, r, k).Ok?
    ensures Keeps(Prefix(x, r, k).value.0, images, if k == |Program(x)| then done + {x} else done)
  {
    var n := |FetchOps(x)|;
    FetchOpsFetch(x);
    if k <= n && k < |Program(x)| {
      assert Program(x)[..k] == FetchOps(x)[..k];
      FetchingGrows(FetchOps(x)[..k], r, NO_LOCAL);
      GrowKeeps(r, Prefix(x, r, k).value.0, images, done);
    } else {
      RecordingPartKeeps(x, r, k, images, done);
    }
  }

  lemma RecordingPartKeeps(x: ComponentImage, r: Repo, k: nat, images: set<ComponentImage>, done: set<ComponentImage>)
    requires Compatible(images) && Keeps(r, images, done) && x in images
    requires |FetchOps(x)| <= k <= |Program(x)| && Prefix(x, r, k).Ok?
    ensures Keeps(Prefix(x, r, k).value.0, images, if k == |Program(x)| then done + {x} else done)
  {
    var j := k - |FetchOps(x)|;
    RecordingPart(x, r, k);
    var (m, y) := Run(FetchOps(x), r, NO_LOCAL).value;
    GrowKeeps(r, m, images, done);
    RecordingStages(x, m, y, j);
    RecordingKeeps(x, m, Prefix(x, r, k).value.0, j == |RecordOps(x)|, images, done);
  }

  lemma RecordingPart(x: ComponentImage, r: Repo, k: nat)
    requires Ordinary(x) && |FetchOps(x)| <= k <= |Program(x)| && Prefix(x, r, k).Ok?
    ensures Run(FetchOps(x), r, NO_LOCAL).Ok?
    ensures var (m, y) := Run(FetchOps(x), r, NO_LOCAL).value;
            && Grows(r, m) && m.indexFile == r.indexFile && Complete(m, x.digest) == Ok(true)
            && (x.SeparatePin().Some? ==> Has(m, x.SeparatePin().value))
            && Prefix(x, r, k) == Run(RecordOps(x)[..k - |FetchOps(x)|], m, y)
  {
    var j := k - |FetchOps(x)|;
    assert Program(x)[..k] == FetchOps(x) + RecordOps(x)[..j];
    RunAppend(FetchOps(x), RecordOps(x)[..j], r, NO_LOCAL);
    FetchedImage(x, r, NO_LOCAL);
  }
}
