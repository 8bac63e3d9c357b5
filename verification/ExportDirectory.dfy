/** The export of images as loops over repository directories. */
module ExportDirectory {
  import opened Results
  import opened Oci
  import opened ImageStore
  import opened RepoDirectory
  import opened BundleExport

  lemma PutLeaves(e: Descriptor, r: Repo, calm: bool, ok: bool, s: Repo)
    requires Leaves([LoadRepo, StoreRepo(e)], r, calm, ok, s)
    ensures ok ==> PutEntry(r, e) == Ok(s)
    ensures !ok && calm ==> PutEntry(r, e).Err?
  {
    PutRuns(e, r, NO_LOCAL);
  }

  lemma TaggedPutLeaves(tag: string, e: Descriptor, r: Repo, calm: bool, ok: bool, s: Repo)
    requires tag != "" && Leaves(TaggedOps(tag, e), r, calm, ok, s)
    ensures ok ==> PutTagged(r, tag, e) == Ok(s)
    ensures !ok && calm ==> PutTagged(r, tag, e).Err?
  {
    TaggedLeaves(tag, e, r);
    if ReadTaggedIndex(r, tag).Ok? {
      var tagged := WithManifest(ReadTaggedIndex(r, tag).value, e);
      assert ReadRepoIndex(PutBlob(r, Encode(tagged))) == ReadRepoIndex(r);
    }
  }

  method CopyBlobFiles(src: Repo, dst: RepoDir, ds: seq<Digest>) returns (ok: bool)
    modifies dst`blobs, dst`count
    ensures ok ==> CopyBlobs(src, old(dst.State()), ds) == Ok(dst.State())
    ensures !ok && Calm(dst.disturbance) ==> CopyBlobs(src, old(dst.State()), ds).Err?
  {
    for i := 0 to |ds|
      invariant dst.indexFile == old(dst.indexFile)
      invariant CopyBlobs(src, old(dst.State()), ds) == CopyBlobs(src, dst.State(), ds[i..])
    {
      assert ds[i..][0] == ds[i] && ds[i..][1..] == ds[i + 1..];
      var failed := dst.Disturbed();
      if failed || ds[i] !in src.blobs {
        return false;
      }
      dst.blobs := dst.blobs[ds[i] := src.blobs[ds[i]]];
    }
    ok := true;
  }

  method CopyPinnedEntries(dst: RepoDir, entries: seq<Descriptor>, pin: Digest) returns (ok: bool)
    modifies dst
    ensures ok ==> CopyPinned(old(dst.State()), entries, pin) == Ok(dst.State())
    ensures !ok && Calm(dst.disturbance) ==> CopyPinned(old(dst.State()), entries, pin).Err?
  {
    for i := 0 to |entries|
      invariant CopyPinned(old(dst.State()), entries, pin) == CopyPinned(dst.State(), entries[i..], pin)
    {
      assert entries[i..][0] == entries[i] && entries[i..][1..] == entries[i + 1..];
      if entries[i].digest == pin {
        ghost var r := dst.State();
        ok := dst.UpsertRepoIndexDescriptor(entries[i]);
        PutLeaves(entries[i], r, Calm(dst.disturbance), ok, dst.State());
        if !ok {
          return;
        }
      }
    }
    ok := true;
  }

  method CopyImage(src: Repo, dst: RepoDir, image: ComponentImage) returns (ok: bool)
    modifies dst
    ensures ok ==> CopyCachedImage(src, old(dst.State()), image) == Ok(dst.State())
    ensures !ok && Calm(dst.disturbance) ==> CopyCachedImage(src, old(dst.State()), image).Err?
  {
    var d := image.digest;
    if d !in src.blobs || src.blobs[d].Opaque? {
      return false;
    }
    ok := CopyBlobFiles(src, dst, ImageBlobs(src.blobs[d].doc, d));
    if !ok {
      return;
    }
    if image.SeparatePin().Some? {
      var pin := image.SeparatePin().value;
      ok := CopyBlobFiles(src, dst, [pin]);
      if !ok {
        return;
      }
      var index := ReadRepoIndex(src);
      if index.Err? {
        return false;
      }
      ok := CopyPinnedEntries(dst, index.value.manifests, pin);
      if !ok {
        return;
      }
    }
    ghost var s := dst.State();
    if image.Tag() != "" && image.SeparatePin().None? {
      ok := dst.UpsertTaggedImageIndex(image.Tag(), ExportEntry(image));
      TaggedPutLeaves(image.Tag(), ExportEntry(image), s, Calm(dst.disturbance), ok, dst.State());
    } else {
      ok := dst.UpsertRepoIndexDescriptor(ExportEntry(image));
      PutLeaves(ExportEntry(image), s, Calm(dst.disturbance), ok, dst.State());
    }
  }

  /** One more image; a failure is the failure of the whole export. */
  lemma OneMoreImage(src: map<string, Repo>, images: seq<ComponentImage>, i: nat, dst: map<string, Repo>)
    requires i < |images| && ExportedSoFar(src, images, i) == Ok(dst)
    ensures ExportedSoFar(src, images, i + 1) == AddImage(src, dst, images[i])
    ensures AddImage(src, dst, images[i]).Err? ==> ExportedSoFar(src, images, |images|).Err?
  {
    SoFarStep(src, images, i + 1);
    if AddImage(src, dst, images[i]).Err? {
      FailureStays((d, image) => AddImage(src, d, image), map[], images, i + 1, |images|);
    }
  }

  /** Opens the image's repository in the destination and copies the image into it. */
  method ExportImage(src: map<string, Repo>, dst: map<string, Repo>, image: ComponentImage, disturbance: nat -> bool,
                     leftover: nat -> Option<Blob>)
    returns (r: Result<map<string, Repo>>)
    ensures r.Ok? || Calm(disturbance) ==> r == AddImage(src, dst, image)
  {
    var name := RepoName(image);
    var dir := new RepoDir(RepoAt(dst, name), disturbance, leftover);
    var ok := CopyImage(RepoAt(src, name), dir, image);
    return if ok then Ok(dst[name := dir.State()]) else Err;
  }

  /** The image loop of an export into an empty cache. */
  method Export(src: map<string, Repo>, images: seq<ComponentImage>, disturbance: nat -> (nat -> bool),
                leftover: nat -> (nat -> Option<Blob>))
    returns (r: Result<map<string, Repo>>)
    ensures r.Ok? || (forall i :: Calm(disturbance(i))) ==> r == ExportedSoFar(src, images, |images|)
  {
    var dst: map<string, Repo> := map[];
    for i := 0 to |images|
      invariant ExportedSoFar(src, images, i) == Ok(dst)
    {
      OneMoreImage(src, images, i, dst);
      r := ExportImage(src, dst, images[i], disturbance(i), leftover(i));
      if r.Err? {
        return;
      }
      dst := r.value;
    }
    r := Ok(dst);
  }
}
