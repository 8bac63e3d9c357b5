/** Which entries storing and exporting an image leave in the indexes, with their platforms written out. */
module RecordedEntries {
  import opened Results
  import opened Oci
  import opened ImageStore
  import opened ImageWrites
  import opened BundleExport

  /** The entry describes the file of its digest. */
  ghost predicate Describes(e: Descriptor, d: Digest) {
    && e.digest == d && d.Sha256? && e.size == Length(d.content)
    && (d.content.Json? ==> e.mediaType == d.content.doc.mediaType)
  }

  /** The platform that the download writes down for a text cut at its slashes. */
  ghost predicate StoredPlatform(parts: seq<string>, p: Option<Platform>) {
    if |parts| < 2 then p == None
    else if |parts| == 2 then p == Some(Platform(parts[0], parts[1], ""))
    else p == Some(Platform(parts[0], parts[1], parts[2]))
  }

  /** The export writes one down only for a text of exactly two parts. */
  ghost predicate ExportedPlatform(parts: seq<string>, p: Option<Platform>) {
    if |parts| == 2 then p == Some(Platform(parts[0], parts[1], "")) else p == None
  }

  ghost function EntryAt(r: Repo, key: EntryKey): Option<Descriptor> {
    Resolve(IndexOf(r), key)
  }

  /** The entry of a tag carries it as its reference name, and nothing else. */
  ghost predicate TagAnnotated(r: Repo, tag: string) {
    var e := EntryAt(r, ByTag(tag));
    e.Some? && e.value.annotations == map["org.opencontainers.image.ref.name" := tag]
  }

  /** An entry that was put is found under its key, as it is. */
  lemma PutIsFound(g: Repo, s: Repo, e: Descriptor)
    requires Puts(g, s, e)
    ensures EntryAt(s, e.Key()) == Some(e)
    ensures forall key {:trigger EntryAt(s, key)} :: key != e.Key() ==> EntryAt(s, key) == EntryAt(g, key)
  {
    UpsertIsMapUpdate(IndexOf(g), e, e.Key());
    forall key | key != e.Key()
      ensures EntryAt(s, key) == EntryAt(g, key)
    {
      UpsertIsMapUpdate(IndexOf(g), e, key);
    }
  }

  // ---- storing

  /** After an image was stored its own entry is in the index with its platform, unless the reference is
      untagged and pins another index; such an index has an entry without a platform, under the tag if there
      is one; and a tag that pins nothing else lists the image with its platform. */
  lemma StoreRecords(r: Repo, image: ComponentImage)
    requires Ordinary(image) && WriteImage(r, image).Ok?
    ensures var s := WriteImage(r, image).value;
            && (image.Tag() != "" || image.SeparatePin().None? ==>
                  var e := EntryAt(s, ByDigest(image.digest));
                  e.Some? && Describes(e.value, image.digest) && StoredPlatform(image.platform, e.value.platform))
            && (image.SeparatePin().Some? ==>
                  var pin := image.SeparatePin().value;
                  var e := EntryAt(s, if image.Tag() != "" then ByTag(image.Tag()) else ByDigest(pin));
                  e.Some? && Describes(e.value, pin) && e.value.platform == None)
            && (image.Tag() != "" && image.SeparatePin().None? ==>
                  exists e :: e in View(s, image.Tag()) && Describes(e, image.digest) &&
                              StoredPlatform(image.platform, e.platform))
            && (image.Tag() != "" ==> TagAnnotated(s, image.Tag()))
  {
    WrittenStages(r, image);
    var m, s := AfterFetch(r, image), WriteImage(r, image).value;
    if image.SeparatePin().None? && image.Tag() != "" {
      TagRecords(m, s, image);
    } else if image.Tag() != "" {
      TaggedPinRecords(m, s, image);
    } else if image.SeparatePin().Some? {
      EntryOfPin(image);
      PutIsFound(m, s, PinEntry(image));
    } else {
      EntryOfImage(image);
      PutIsFound(m, s, ImageEntry(image));
    }
  }

  lemma TaggedPinRecords(m: Repo, s: Repo, image: ComponentImage)
    requires image.digest.Sha256? && image.SeparatePin().Some? && image.SeparatePin().value.Sha256?
    requires image.Tag() != "" && Recording(image, m, s, true)
    ensures EntryAt(s, ByDigest(image.digest)) == Some(ImageEntry(image))
    ensures EntryAt(s, ByTag(image.Tag())) == Some(PinEntry(image))
    ensures Describes(ImageEntry(image), image.digest) && StoredPlatform(image.platform, ImageEntry(image).platform)
    ensures Describes(PinEntry(image), image.SeparatePin().value) && PinEntry(image).platform == None
  {
    EntryOfImage(image);
    EntryOfPin(image);
    var h :| Puts(m, h, ImageEntry(image)) && Puts(h, s, PinEntry(image));
    PutIsFound(m, h, ImageEntry(image));
    PutIsFound(h, s, PinEntry(image));
  }

  lemma EntryOfPin(image: ComponentImage)
    requires image.SeparatePin().Some? && image.SeparatePin().value.Sha256?
    ensures var pin := image.SeparatePin().value;
            && Describes(PinEntry(image), pin) && PinEntry(image).platform == None
            && PinEntry(image).Key() == if image.Tag() != "" then ByTag(image.Tag()) else ByDigest(pin)
  {
  }

  lemma EntryOfImage(image: ComponentImage)
    requires image.digest.Sha256?
    ensures Describes(ImageEntry(image), image.digest) && StoredPlatform(image.platform, ImageEntry(image).platform)
    ensures ImageEntry(image).Key() == ByDigest(image.digest)
  {
  }

  lemma TagRecords(m: Repo, s: Repo, image: ComponentImage)
    requires image.SeparatePin().None? && image.Tag() != "" && Recording(image, m, s, true)
    requires Complete(m, image.digest) == Ok(true)
    ensures var e := EntryAt(s, ByDigest(image.digest));
            e.Some? && Describes(e.value, image.digest) && StoredPlatform(image.platform, e.value.platform)
    ensures exists e :: e in View(s, image.Tag()) && Describes(e, image.digest) &&
                        StoredPlatform(image.platform, e.platform)
    ensures TagAnnotated(s, image.Tag())
  {
    var made, e := NewTagIndex(m, image), ImageEntry(image);
    EntryOfImage(image);
    NewTagIndexShape(m, image);
    var h := PutBlob(m, Encode(made));
    var g :| Puts(h, g, e) && Puts(g, s, TagEntry(image.Tag(), made));
    EntryThenTag(h, g, s, image.Tag(), e, made);
    PutIsIn(View(m, image.Tag()), e);
  }

  /** An entry was put, and then that of the tag whose image index was made. */
  lemma EntryThenTag(h: Repo, g: Repo, s: Repo, tag: string, e: Descriptor, made: Index)
    requires tag != "" && e.Tag() == "" && Shaped(made) && Has(h, Sha256(Encode(made)))
    requires Puts(h, g, e) && Puts(g, s, TagEntry(tag, made))
    ensures EntryAt(s, ByDigest(e.digest)) == Some(e) && TagAnnotated(s, tag)
    ensures View(s, tag) == made.manifests
  {
    PutIsFound(h, g, e);
    PutIsFound(g, s, TagEntry(tag, made));
    ReadTagBack(g, s, TagEntry(tag, made));
  }

  lemma PutIsIn(ms: seq<Descriptor>, e: Descriptor)
    ensures e in UpsertManifest(ms, e)
  {
    assert UpsertManifest(ms, e)[MatchIndex(ms, e)] == e;
  }

  // ---- exporting

  /** After an image was copied its own entry is in the index of the copy, and for a tag without another pinned
      index in the image index of the tag; both carry os and arch when the platform's text has exactly these
      two parts, and no platform otherwise. */
  lemma CopyRecords(src: Repo, dst: Repo, x: ComponentImage)
    requires Has(src, x.digest) && CopyCachedImage(src, dst, x).Ok?
    ensures var s := CopyCachedImage(src, dst, x).value;
            && (var e := EntryAt(s, ByDigest(x.digest));
                e.Some? && Describes(e.value, x.digest) && ExportedPlatform(x.platform, e.value.platform))
            && (x.Tag() != "" && x.SeparatePin().None? ==>
                  exists e :: e in View(s, x.Tag()) && Describes(e, x.digest) &&
                              ExportedPlatform(x.platform, e.platform))
  {
    var r := CopyBlobs(src, dst, ImageBlobs(src.blobs[x.digest].doc, x.digest)).value;
    var h := CopyPin(src, r, x).value;
    if x.Tag() != "" && x.SeparatePin().None? {
      PutTaggedRecords(h, x.Tag(), ExportEntry(x));
    } else {
      PutEntryPuts(h, ExportEntry(x));
      PutIsFound(h, PutEntry(h, ExportEntry(x)).value, ExportEntry(x));
    }
  }

  lemma PutTaggedRecords(r: Repo, tag: string, e: Descriptor)
    requires tag != "" && PutTagged(r, tag, e).Ok? && e.digest.Sha256? && e.Tag() == ""
    ensures EntryAt(PutTagged(r, tag, e).value, ByDigest(e.digest)) == Some(e)
    ensures e in View(PutTagged(r, tag, e).value, tag)
  {
    var made := Rebuilt(r, tag, e);
    var h, s := PutBlob(r, Encode(made)), PutTagged(r, tag, e).value;
    PutTwice(h, e, TagEntry(tag, made));
    RebuiltStored(r, tag, e);
    PutIsFound(h, WithEntry(h, e), e);
    PutIsFound(WithEntry(h, e), s, TagEntry(tag, made));
    ReadTagBack(WithEntry(h, e), s, TagEntry(tag, made));
    PutIsIn(View(r, tag), e);
  }
}
