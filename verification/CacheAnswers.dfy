/** What the answers of the cache check mean, in terms of the files. */
module CacheAnswers {
  import opened Results
  import opened Oci
  import opened ImageStore
  import opened TagListings
  import opened ImageWrites

  // ---- blobs

  /** The file is there with its promised content, of the size that is stated. */
  ghost predicate Stored(r: Repo, e: Descriptor) {
    Has(r, e.digest) && Length(e.digest.content) == e.size
  }

  /** The document is there, and its config, if it names one, and all its layers. */
  ghost predicate AllThere(r: Repo, d: Digest) {
    && Has(r, d) && d.content.Json?
    && (d.content.doc.config.Some? ==> Stored(r, d.content.doc.config.value))
    && forall l :: l in d.content.doc.layers ==> Stored(r, l)
  }

  /** The blob can only be judged by an error: its digest is of no supported kind, or it is there and is no
      document, or a part of an unsupported kind comes before any part that is missing. */
  ghost predicate Unjudged(r: Repo, d: Digest) {
    || d.Unsupported?
    || (Has(r, d) && (d.content.Opaque? || exists k :: Undecided(r, Parts(d.content.doc), k)))
  }

  ghost predicate Undecided(r: Repo, parts: seq<Descriptor>, k: nat) {
    k < |parts| && parts[k].digest.Unsupported? && forall j :: 0 <= j < k ==> Stored(r, parts[j])
  }

  lemma {:induction false} PartsMean(r: Repo, parts: seq<Descriptor>)
    ensures PartsComplete(r, parts) == Ok(true) <==> forall p :: p in parts ==> Stored(r, p)
    ensures PartsComplete(r, parts).Err? <==> exists k: nat :: Undecided(r, parts, k)
  {
    if parts != [] {
      var rest := parts[1..];
      PartsMean(r, rest);
      assert parts == [parts[0]] + rest && parts[0] in parts;
      assert BlobComplete(r, parts[0].digest, parts[0].size) == Ok(true) <==> Stored(r, parts[0]);
      forall k: nat
        ensures Stored(r, parts[0]) ==> (Undecided(r, rest, k) <==> Undecided(r, parts, k + 1))
      {
        if Stored(r, parts[0]) {
          UndecidedNext(r, parts, k);
        }
      }
      if parts[0].digest.Unsupported? {
        assert Undecided(r, parts, 0);
      } else if exists k: nat :: Undecided(r, parts, k) {
        var k: nat :| Undecided(r, parts, k);
        assert k > 0 && Stored(r, parts[0]) && Undecided(r, rest, k - 1);
      }
    }
  }

  lemma UndecidedNext(r: Repo, parts: seq<Descriptor>, k: nat)
    requires parts != [] && Stored(r, parts[0])
    ensures Undecided(r, parts[1..], k) <==> Undecided(r, parts, k + 1)
  {
    if Undecided(r, parts, k + 1) {
      assert forall j :: 0 <= j < k ==> parts[1..][j] == parts[j + 1];
    }
    if Undecided(r, parts[1..], k) {
      forall j | 0 <= j < k + 1
        ensures Stored(r, parts[j])
      {
        assert j > 0 ==> parts[j] == parts[1..][j - 1];
      }
    }
  }

  lemma CompleteMeans(r: Repo, d: Digest)
    ensures Complete(r, d) == Ok(true) <==> AllThere(r, d)
    ensures Complete(r, d).Err? <==> Unjudged(r, d)
  {
    if d.Sha256? && d.content.Json? {
      var doc := d.content.doc;
      PartsMean(r, Parts(doc));
      assert forall p :: p in Parts(doc) <==> (doc.config.Some? && p == doc.config.value) || p in doc.layers;
    }
  }

  // ---- the index of a repository, and that of a tag

  /** No index file counts as an empty index; a file is refused when it does not decode or names a digest
      of an unsupported kind; otherwise its entries are read, and a missing schema version is two. */
  lemma RepoIndexMeans(r: Repo)
    ensures r.indexFile.None? ==> ReadRepoIndex(r) == Ok(Index(2, "application/vnd.oci.image.index.v1+json", []))
    ensures r.indexFile.Some? ==>
              var file := r.indexFile.value;
              && (ReadRepoIndex(r).Err? <==>
                    file.Opaque? || exists e :: e in file.doc.manifests && e.digest.Unsupported?)
              && (ReadRepoIndex(r).Ok? ==>
                    var i := ReadRepoIndex(r).value;
                    && i.manifests == file.doc.manifests && i.mediaType == file.doc.mediaType
                    && i.schemaVersion == if file.doc.schemaVersion == 0 then 2 else file.doc.schemaVersion)
  {
  }

  /** The first entry that carries the tag. */
  ghost predicate Tagged(ms: seq<Descriptor>, tag: string, k: nat) {
    k < |ms| && ms[k].Tag() == tag && forall j :: 0 <= j < k ==> ms[j].Tag() != tag
  }

  /** A tag without an entry, or whose blob is missing, reads as an empty index; a blob that is no document is
      refused; a document without entries stands for itself when its entry has another media type than an image
      index; otherwise the document's entries are read. */
  lemma TagMeans(r: Repo, tag: string)
    requires tag != "" && ReadRepoIndex(r).Ok?
    ensures (forall e :: e in IndexOf(r) ==> e.Tag() != tag) ==>
              ReadTaggedIndex(r, tag).Ok? && View(r, tag) == []
    ensures forall k: nat :: Tagged(IndexOf(r), tag, k) ==>
              var e := IndexOf(r)[k];
              && (ReadTaggedIndex(r, tag).Err? <==> e.digest in r.blobs && r.blobs[e.digest].Opaque?)
              && (ReadTaggedIndex(r, tag).Ok? ==>
                    View(r, tag) ==
                    if e.digest !in r.blobs then []
                    else if r.blobs[e.digest].doc.manifests != [] then r.blobs[e.digest].doc.manifests
                    else if e.mediaType == "application/vnd.oci.image.index.v1+json" then [] else [e])
  {
    var ms := IndexOf(r);
    var i := KeyIndex(ms, ByTag(tag));
    assert i < |ms| ==> ms[i] in ms;
    forall k: nat | Tagged(ms, tag, k)
      ensures k == i
    {
      KeyIndexIs(ms, ByTag(tag), k);
    }
  }

  // ---- the check

  /** Of the entries that carry the image's digest or its OS and architecture, the first one carries its
      digest. */
  ghost predicate FoundFirst(image: ComponentImage, ms: seq<Descriptor>, k: nat) {
    && k < |ms| && ms[k].digest == image.digest
    && forall j :: 0 <= j < k ==> ms[j].digest != image.digest && !OtherOfPlatform(image, ms[j])
  }

  ghost predicate OtherOfPlatform(image: ComponentImage, e: Descriptor) {
    && |image.platform| >= 2 && e.platform.Some?
    && e.platform.value.os == image.platform[0] && e.platform.value.arch == image.platform[1]
  }

  lemma ListedMeans(image: ComponentImage, ms: seq<Descriptor>)
    ensures Listed(image, ms) <==> exists k: nat :: FoundFirst(image, ms, k)
  {
    var i := HitIndex(image, ms);
    if Listed(image, ms) {
      assert FoundFirst(image, ms, i);
    }
    if k: nat :| FoundFirst(image, ms, k) {
      HitIndexIs(image, ms, k);
    }
  }

  /** The index entries that the check wants: the digest in the repository's index, and for a tag the image
      as the first entry that concerns it. */
  ghost predicate Recorded(r: Repo, image: ComponentImage) {
    && (exists e :: e in IndexOf(r) && e.digest == image.digest)
    && (image.reference.tag != "" ==> exists k: nat :: FoundFirst(image, View(r, image.reference.tag), k))
  }

  ghost predicate IndexesReadable(r: Repo, tag: string) {
    ReadRepoIndex(r).Ok? && (tag != "" ==> ReadTaggedIndex(r, tag).Ok?)
  }

  /** The digest of another index that a tagged reference pins. */
  ghost predicate PinsAnother(image: ComponentImage) {
    image.reference.tag != "" && image.reference.pin.Some? && image.reference.pin.value != image.digest
  }

  lemma RecordedIs(r: Repo, image: ComponentImage)
    ensures Recorded(r, image) <==>
              && HasDigest(IndexOf(r), image.digest)
              && (image.Tag() != "" ==> Listed(image, View(r, image.Tag())))
  {
    if image.Tag() != "" {
      ListedMeans(image, View(r, image.Tag()));
    }
  }

  /** The check in steps: the indexes, the entries, the image's files, and those of the pinned index. */
  lemma CheckSteps(r: Repo, image: ComponentImage)
    ensures CheckCached(r, image) ==
            if !IndexesReadable(r, image.reference.tag) then Err
            else if !Recorded(r, image) then Ok(false)
            else if Complete(r, image.digest) != Ok(true) || !PinsAnother(image) then Complete(r, image.digest)
            else Complete(r, image.reference.pin.value)
  {
    RecordedIs(r, image);
    if IndexesReadable(r, image.Tag()) {
      assert ReadRepoIndex(r).value.manifests == IndexOf(r);
      assert image.Tag() != "" ==> ReadTaggedIndex(r, image.Tag()).value.manifests == View(r, image.Tag());
    }
  }

  /** The check answers yes if and only if the indexes can be read and record the image, all files of the
      image are there with their content and sizes, and so are those of another index that a tagged reference
      pins. */
  lemma CachedMeans(r: Repo, image: ComponentImage)
    ensures CheckCached(r, image) == Ok(true) <==>
              && IndexesReadable(r, image.reference.tag) && Recorded(r, image) && AllThere(r, image.digest)
              && (PinsAnother(image) ==> AllThere(r, image.reference.pin.value))
  {
    CheckSteps(r, image);
    CompleteMeans(r, image.digest);
    if PinsAnother(image) {
      CompleteMeans(r, image.reference.pin.value);
    }
  }

  /** It gives an error if and only if an index cannot be read, or a recorded image, or the index that it pins
      when the image itself is there, can only be judged by an error; otherwise it answers. */
  lemma CheckFails(r: Repo, image: ComponentImage)
    ensures CheckCached(r, image).Err? <==>
              || !IndexesReadable(r, image.reference.tag)
              || (Recorded(r, image) && Unjudged(r, image.digest))
              || (Recorded(r, image) && AllThere(r, image.digest) && PinsAnother(image) &&
                  Unjudged(r, image.reference.pin.value))
  {
    CheckSteps(r, image);
    CompleteMeans(r, image.digest);
    if PinsAnother(image) {
      CompleteMeans(r, image.reference.pin.value);
    }
  }
}
