/** Inputs for which an image is stored without an error and yet not found in the cache. */
module CacheCorners {
  import opened Results
  import opened Oci
  import opened ImageStore
  import opened ImageWrites
  import opened RepoHistory
  import opened TagListings
  import opened BundleImport
  import opened ImportCrash
  import opened ImportedImages
  import opened BundleExport

  /** An image manifest with the given config and no layers, and a child index of it. */
  const CONFIG := Descriptor("", Sha256(Opaque("c")), 1, None, map[])
  const MANIFEST := Json(Document(2, "manifest", [], Some(CONFIG), []), 9)
  const CHILD := Descriptor("manifest", Sha256(MANIFEST), 9, None, map[])
  const UPSTREAM := Json(Document(2, INDEX_TYPE, [CHILD], None, []), 9)

  lemma RunFirst(op: Op, rest: seq<Op>, r: Repo, x: Local)
    requires Step(op, r, x).Ok?
    ensures Run([op] + rest, r, x) == Run(rest, Step(op, r, x).value.0, Step(op, r, x).value.1)
  {
    assert ([op] + rest)[1..] == rest;
  }

  lemma FetchesManifest(rest: seq<Op>, r: Repo, x: Local)
    ensures var h := PutBlob(PutBlob(r, MANIFEST), Opaque("c"));
            Run(BlobOps(Sha256(MANIFEST)) + rest, r, x) == Run(rest, h, x)
  {
    var d := Sha256(MANIFEST);
    assert Parts(MANIFEST.doc) == [CONFIG] && [CONFIG][1..] == [];
    assert PartOps([CONFIG]) == [FetchPart(CONFIG)] + PartOps([]);
    assert BlobOps(d) + rest == [Fetch(d)] + ([FetchPart(CONFIG)] + rest);
    RunFirst(Fetch(d), [FetchPart(CONFIG)] + rest, r, x);
    RunFirst(FetchPart(CONFIG), rest, PutBlob(r, MANIFEST), x);
  }

  /** An untagged reference pinned to the upstream index: stored in an empty repository, not found. */
  lemma UntaggedPinNotFound(repository: string, platform: seq<string>)
    ensures var image := ComponentImage(Reference(repository, "", Some(Sha256(UPSTREAM))), Sha256(MANIFEST), platform);
            && Ordinary(image) && WriteImage(EMPTY_REPO, image).Ok?
            && !Cached(WriteImage(EMPTY_REPO, image).value, image)
  {
    var image := ComponentImage(Reference(repository, "", Some(Sha256(UPSTREAM))), Sha256(MANIFEST), platform);
    UntaggedPinStores(image);
    WrittenIsCached(EMPTY_REPO, image);
  }

  lemma UntaggedPinStores(image: ComponentImage)
    requires image.digest == Sha256(MANIFEST) && image.Tag() == "" && image.SeparatePin() == Some(Sha256(UPSTREAM))
    ensures WriteImage(EMPTY_REPO, image).Ok?
  {
    var store := StoreRepo(RemoteDescriptor(Sha256(UPSTREAM), None));
    var r := PutBlob(EMPTY_REPO, UPSTREAM);
    assert Program(image) == [Fetch(Sha256(UPSTREAM))] + (BlobOps(Sha256(MANIFEST)) + [LoadRepo, store]);
    RunFirst(Fetch(Sha256(UPSTREAM)), BlobOps(Sha256(MANIFEST)) + [LoadRepo, store], EMPTY_REPO, NO_LOCAL);
    FetchesManifest([LoadRepo, store], r, NO_LOCAL);
    RecordsPin(store, PutBlob(PutBlob(r, MANIFEST), Opaque("c")));
  }

  lemma RecordsPin(store: Op, r: Repo)
    requires store.StoreRepo? && ReadRepoIndex(r).Ok?
    ensures Run([LoadRepo, store], r, NO_LOCAL).Ok?
  {
    assert [LoadRepo, store] == [LoadRepo] + [store] && [store] == [store] + [];
    RunFirst(LoadRepo, [store], r, NO_LOCAL);
    RunFirst(store, [], r, Step(LoadRepo, r, NO_LOCAL).value.1);
  }

  const V6 := Descriptor("manifest", Sha256(Opaque("v6")), 2, Some(Platform("linux", "arm", "v6")), map[])

  /** A repository whose tag lists linux/arm/v6 alone. */
  function ListsV6(tag: string): Repo {
    var listed := Index(2, INDEX_TYPE, [V6]);
    PutBlob(PutIndex(EMPTY_REPO, Index(2, INDEX_TYPE, [TagEntry(tag, listed)])), Encode(listed))
  }

  function V7(repository: string, tag: string): ComponentImage {
    ComponentImage(Reference(repository, tag, None), Sha256(MANIFEST), ["linux", "arm", "v7"])
  }

  lemma ViewOfV6(tag: string)
    requires tag != ""
    ensures ReadTaggedIndex(ListsV6(tag), tag).Ok? && View(ListsV6(tag), tag) == [V6] && TagSound(ListsV6(tag), tag)
  {
    var entry := TagEntry(tag, Index(2, INDEX_TYPE, [V6]));
    KeyIndexIs([entry], ByTag(tag), 0);
    assert IndexOf(ListsV6(tag)) == [entry];
  }

  /** A tag that lists another variant of the same OS and architecture: stored, not found. */
  lemma SecondVariantNotFound(repository: string, tag: string)
    requires tag != ""
    ensures var image := V7(repository, tag);
            && View(ListsV6(tag), tag) == [V6] && Ordinary(image) && WriteImage(ListsV6(tag), image).Ok?
            && !Cached(WriteImage(ListsV6(tag), image).value, image)
  {
    var image, r := V7(repository, tag), ListsV6(tag);
    ViewOfV6(tag);
    StoresManifest(image, r);
    StoredIsCached(r, image);
    MatchIndexIs([V6], ImageEntry(image), 1);
    assert MatchesPlatform(image, View(r, tag)[0]);
  }

  lemma StoresManifest(image: ComponentImage, r: Repo)
    requires image.digest == Sha256(MANIFEST) && image.Tag() != "" && image.SeparatePin().None?
    requires TagSound(r, image.Tag()) && ReadTaggedIndex(r, image.Tag()).Ok?
    ensures WriteImage(r, image).Ok?
  {
    FetchesManifest(RecordOps(image), r, NO_LOCAL);
    TagAfterFetch(r, image.Tag());
    RecordsTagged(image, PutBlob(PutBlob(r, MANIFEST), Opaque("c")));
    assert Program(image) == BlobOps(Sha256(MANIFEST)) + RecordOps(image);
  }

  lemma TagAfterFetch(r: Repo, tag: string)
    requires tag != "" && TagSound(r, tag) && ReadTaggedIndex(r, tag).Ok?
    ensures ReadTaggedIndex(PutBlob(PutBlob(r, MANIFEST), Opaque("c")), tag).Ok?
  {
    TagGrows(r, PutBlob(PutBlob(r, MANIFEST), Opaque("c")), tag);
  }

  /** Recording under a readable tag succeeds. */
  lemma RecordsTagged(image: ComponentImage, r: Repo)
    requires image.Tag() != "" && image.SeparatePin().None? && ReadTaggedIndex(r, image.Tag()).Ok?
    ensures Run(RecordOps(image), r, NO_LOCAL).Ok?
  {
    var tag, e := image.Tag(), ImageEntry(image);
    assert RecordOps(image) == [LoadTag(tag)] + ([StoreTag(e)] + ([LoadRepo] + ([StoreTagged(tag, e)] + [])));
    RunFirst(LoadTag(tag), [StoreTag(e)] + ([LoadRepo] + ([StoreTagged(tag, e)] + [])), r, NO_LOCAL);
    var x := Step(LoadTag(tag), r, NO_LOCAL).value.1;
    RunFirst(StoreTag(e), [LoadRepo] + ([StoreTagged(tag, e)] + []), r, x);
    var (h, y) := Step(StoreTag(e), r, x).value;
    RunFirst(LoadRepo, [StoreTagged(tag, e)] + [], h, y);
    RunFirst(StoreTagged(tag, e), [], h, Step(LoadRepo, h, y).value.1);
  }

  // ---- a pinned index that lists another variant first

  const UPSTREAM_V6 := Json(Document(2, INDEX_TYPE, [V6, CHILD], None, []), 9)

  function PinnedV7(repository: string, tag: string): ComponentImage {
    ComponentImage(Reference(repository, tag, Some(Sha256(UPSTREAM_V6))), Sha256(MANIFEST), ["linux", "arm", "v7"])
  }

  /** A tagged reference pinned to an index that lists another variant first: stored in an empty
      repository, not found. */
  lemma PinnedVariantNotFound(repository: string, tag: string)
    requires tag != ""
    ensures var image := PinnedV7(repository, tag);
            && HasDigest(UPSTREAM_V6.doc.manifests, image.digest) && Ordinary(image)
            && WriteImage(EMPTY_REPO, image).Ok? && !Cached(WriteImage(EMPTY_REPO, image).value, image)
  {
    var image := PinnedV7(repository, tag);
    assert [V6, CHILD][1] == CHILD;
    PinnedStores(image);
    WrittenIsCached(EMPTY_REPO, image);
    assert Hit(image, UPSTREAM_V6.doc.manifests[0]);
  }

  lemma PinnedStores(image: ComponentImage)
    requires image.digest == Sha256(MANIFEST) && image.Tag() != "" && image.SeparatePin() == Some(Sha256(UPSTREAM_V6))
    ensures WriteImage(EMPTY_REPO, image).Ok?
  {
    var e, f := StoreRepo(ImageEntry(image)), StoreRepo(PinEntry(image));
    var r := PutBlob(EMPTY_REPO, UPSTREAM_V6);
    assert RecordOps(image) == [LoadRepo] + ([e] + [LoadRepo, f]);
    assert Program(image) == [Fetch(Sha256(UPSTREAM_V6))] + (BlobOps(Sha256(MANIFEST)) + RecordOps(image));
    RunFirst(Fetch(Sha256(UPSTREAM_V6)), BlobOps(Sha256(MANIFEST)) + RecordOps(image), EMPTY_REPO, NO_LOCAL);
    FetchesManifest(RecordOps(image), r, NO_LOCAL);
    RecordsBoth(e, f, PutBlob(PutBlob(r, MANIFEST), Opaque("c")));
  }

  lemma RecordsBoth(e: Op, f: Op, r: Repo)
    requires e.StoreRepo? && f.StoreRepo? && ReadRepoIndex(r).Ok? && e.entry.digest.Sha256?
    ensures Run([LoadRepo] + ([e] + [LoadRepo, f]), r, NO_LOCAL).Ok?
  {
    RunFirst(LoadRepo, [e] + [LoadRepo, f], r, NO_LOCAL);
    var x := Step(LoadRepo, r, NO_LOCAL).value.1;
    RunFirst(e, [LoadRepo, f], r, x);
    PutIndexPuts(r, e.entry);
    var s := WithEntry(r, e.entry);
    assert [LoadRepo, f] == [LoadRepo] + ([f] + []);
    RunFirst(LoadRepo, [f] + [], s, x);
    RunFirst(f, [], s, Step(LoadRepo, s, x).value.1);
  }

  // ---- an upgrade imported from a bundle

  const OLD_V8 := Descriptor("manifest", Sha256(Opaque("old")), 3, Some(Platform("linux", "arm64", "v8")), map[])

  function V8(repository: string, tag: string): ComponentImage {
    ComponentImage(Reference(repository, tag, None), Sha256(MANIFEST), ["linux", "arm64", "v8"])
  }

  /** A repository whose tag lists one entry. */
  function Lists(repo: string, tag: string, e: Descriptor): Files {
    var listed := Index(2, INDEX_TYPE, [e]);
    map[IndexFile(repo) := Encode(Index(2, INDEX_TYPE, [TagEntry(tag, listed)])),
        BlobFile(repo, Sha256(Encode(listed))) := Encode(listed)]
  }

  /** The files of one exported image, and their inventory. */
  function ExportedFiles(repo: string, image: ComponentImage): Files {
    var listed := Index(2, INDEX_TYPE, [ExportEntry(image)]);
    map[IndexFile(repo) := Encode(Index(2, INDEX_TYPE, [ExportEntry(image), TagEntry(image.Tag(), listed)])),
        BlobFile(repo, Sha256(Encode(listed))) := Encode(listed),
        BlobFile(repo, Sha256(MANIFEST)) := MANIFEST,
        BlobFile(repo, Sha256(Opaque("c"))) := Opaque("c")]
  }

  function Inventory(repo: string, image: ComponentImage): seq<File> {
    var listed := Encode(Index(2, INDEX_TYPE, [ExportEntry(image)]));
    var src := ExportedFiles(repo, image);
    [File(BlobFile(repo, Sha256(listed)), listed),
     File(BlobFile(repo, Sha256(MANIFEST)), MANIFEST),
     File(BlobFile(repo, Sha256(Opaque("c"))), Opaque("c")),
     File(IndexFile(repo), src[IndexFile(repo)])]
  }

  lemma IndexTypeIsMedia()
    ensures IsIndexMedia(INDEX_TYPE)
  {
    assert INDEX_TYPE[|INDEX_TYPE| - 13..] == "index.v1+json";
  }

  lemma ListsIsWhole(repo: string, tag: string, e: Descriptor)
    requires tag != ""
    ensures Whole(Lists(repo, tag, e))
    ensures RepoOf(Lists(repo, tag, e), repo).indexFile.Some?
    ensures EntryIn(Lists(repo, tag, e), repo, tag) == Some(TagEntry(tag, Index(2, INDEX_TYPE, [e])))
  {
    var m, entry := Lists(repo, tag, e), TagEntry(tag, Index(2, INDEX_TYPE, [e]));
    assert [entry][0] == entry && WholeIndex(m, repo, [entry]);
    KeyIndexIs([entry], ByTag(tag), 0);
    IndexIn(m, repo);
  }

  lemma ExportedIsWhole(repo: string, image: ComponentImage)
    requires image.digest == Sha256(MANIFEST) && image.Tag() != ""
    ensures WholeBundle(ExportedFiles(repo, image), Inventory(repo, image))
  {
    var src, files := ExportedFiles(repo, image), Inventory(repo, image);
    ExportedIndexIsWhole(repo, image);
    InventoryCovers(repo, image);
    forall f | f in files
      ensures f.name in src && src[f.name] == f.promised
    {
      assert f == files[0] || f == files[1] || f == files[2] || f == files[3];
    }
  }

  lemma ExportedIndexIsWhole(repo: string, image: ComponentImage)
    requires image.digest == Sha256(MANIFEST) && image.Tag() != ""
    ensures Whole(ExportedFiles(repo, image))
    ensures forall n, e | n in ExportedFiles(repo, image) && n.IndexFile? && ExportedFiles(repo, image)[n].Json? &&
                          e in ExportedFiles(repo, image)[n].doc.manifests :: Proper(e)
  {
    var src := ExportedFiles(repo, image);
    var e, t := ExportEntry(image), TagEntry(image.Tag(), Index(2, INDEX_TYPE, [ExportEntry(image)]));
    assert src[IndexFile(repo)].doc.manifests == [e, t];
    assert UniqueKeys([e, t]) && NoMatchingPairs([e]);
    assert WholeIndex(src, repo, [e, t]);
    assert Proper(e) && Proper(t);
    assert forall n :: n in src && n.IndexFile? ==> n == IndexFile(repo);
  }

  lemma InventoryCovers(repo: string, image: ComponentImage)
    requires image.digest == Sha256(MANIFEST) && image.Tag() != ""
    ensures forall n :: n in ExportedFiles(repo, image) ==> exists f :: f in Inventory(repo, image) && f.name == n
    ensures Distinct(Inventory(repo, image))
  {
    var files := Inventory(repo, image);
    forall n | n in ExportedFiles(repo, image)
      ensures exists f :: f in files && f.name == n
    {
      assert files[0] in files && files[1] in files && files[2] in files && files[3] in files;
    }
  }

  lemma ExportedIsCached(repo: string, image: ComponentImage)
    requires image.digest == Sha256(MANIFEST) && image.Tag() != "" && image.SeparatePin().None?
    ensures var src := ExportedFiles(repo, image);
            && Recorded(RepoOf(src, repo), image) && Cached(RepoOf(src, repo), image)
            && EntryIn(src, repo, image.Tag()) ==
               Some(TagEntry(image.Tag(), Index(2, INDEX_TYPE, [ExportEntry(image)])))
  {
    var src := ExportedFiles(repo, image);
    var e, t := ExportEntry(image), TagEntry(image.Tag(), Index(2, INDEX_TYPE, [ExportEntry(image)]));
    ExportedIsWhole(repo, image);
    IndexIn(src, repo);
    KeyIndexIs([e, t], ByDigest(image.digest), 0);
    KeyIndexIs([e, t], ByTag(image.Tag()), 1);
    BlobsOf(src, repo, image.digest);
    BlobsOf(src, repo, Sha256(Opaque("c")));
    BlobsOf(src, repo, t.digest);
    assert Parts(MANIFEST.doc) == [CONFIG] && [CONFIG][1..] == [];
    assert PartsComplete(RepoOf(src, repo), []) == Ok(true);
    assert [e][0] == e && Hit(image, e);
    HitIndexIs(image, [e], 0);
    assert [e, t][0].digest == image.digest;
  }

  /** The cache lists another image for linux/arm64/v8 under the tag, and the bundle brings the upgrade
      as the export writes it, without a platform: imported, not found. */
  lemma UpgradeNotFound(repository: string, repo: string, tag: string)
    requires tag != ""
    ensures var image, cache := V8(repository, tag), Lists(repo, tag, OLD_V8);
            var src, files := ExportedFiles(repo, image), Inventory(repo, image);
            && Whole(cache) && WholeBundle(src, files)
            && Recorded(RepoOf(src, repo), image) && Cached(RepoOf(src, repo), image)
            && Import(cache, src, files).ok
            && !Cached(RepoOf(Import(cache, src, files).cache, repo), image)
  {
    var image, cache := V8(repository, tag), Lists(repo, tag, OLD_V8);
    var src, files := ExportedFiles(repo, image), Inventory(repo, image);
    ListsIsWhole(repo, tag, OLD_V8);
    ExportedIsWhole(repo, image);
    ExportedIsCached(repo, image);
    UpgradeIsJoined(repository, repo, tag);
    ImportEnds(cache, src, files);
    ImportedIsCached(cache, src, files, repo, image);
  }

  lemma UpgradeIsJoined(repository: string, repo: string, tag: string)
    requires tag != ""
    requires EntryIn(Lists(repo, tag, OLD_V8), repo, tag) == Some(TagEntry(tag, Index(2, INDEX_TYPE, [OLD_V8])))
    requires EntryIn(ExportedFiles(repo, V8(repository, tag)), repo, tag) ==
             Some(TagEntry(tag, Index(2, INDEX_TYPE, [ExportEntry(V8(repository, tag))])))
    ensures var image, cache := V8(repository, tag), Lists(repo, tag, OLD_V8);
            && Comparable(cache, ExportedFiles(repo, image), repo, image)
            && !Free(cache, ExportedFiles(repo, image), repo, image)
  {
    var image := V8(repository, tag);
    var e := ExportEntry(image);
    IndexTypeIsMedia();
    assert Joined(Lists(repo, tag, OLD_V8), ExportedFiles(repo, image), repo, tag);
    HitIndexIs(image, [e], 0);
    MatchIndexIs([OLD_V8], e, 1);
    assert MatchesPlatform(image, [OLD_V8][0]);
  }
}
