/** When copying a cached image into another cache succeeds, and which files it then leaves there. */
module CopyOutcome {
  import opened Results
  import opened Oci
  import opened ImageStore
  import opened ImageWrites
  import opened BundleExport

  /** The digests of the manifest at d, its config and its layers, as far as they are there to be read. */
  ghost predicate Names(src: Repo, d: Digest, needed: Digest) {
    || needed == d
    || (d in src.blobs && src.blobs[d].Json? &&
        var doc := src.blobs[d].doc;
        (doc.config.Some? && needed == doc.config.value.digest) || exists l :: l in doc.layers && needed == l.digest)
  }

  /** What the copy reads: the image's manifest, config and layers, and the index that it pins. */
  ghost predicate Needs(src: Repo, x: ComponentImage, d: Digest) {
    Names(src, x.digest, d) || x.SeparatePin() == Some(d)
  }

  ghost predicate Copyable(src: Repo, x: ComponentImage) {
    && (forall d :: Needs(src, x, d) ==> d in src.blobs)
    && src.blobs[x.digest].Json?
    && (x.SeparatePin().Some? ==> ReadRepoIndex(src).Ok?)
  }

  /** The destination with the needed files added. */
  ghost function Filled(src: Repo, dst: Repo, x: ComponentImage): Repo {
    dst.(blobs := dst.blobs + map d | d in src.blobs && Needs(src, x, d) :: src.blobs[d])
  }

  /** The copy succeeds if and only if the files that it needs are there and the indexes can be read; the tag's
      only when the copy rebuilds it. */
  lemma CopySucceeds(src: Repo, dst: Repo, x: ComponentImage)
    ensures CopyCachedImage(src, dst, x).Ok? <==>
              && Copyable(src, x) && ReadRepoIndex(dst).Ok?
              && (x.Tag() != "" && x.SeparatePin().None? ==> ReadTaggedIndex(Filled(src, dst, x), x.Tag()).Ok?)
  {
    assert Needs(src, x, x.digest);
    if x.digest in src.blobs && src.blobs[x.digest].Json? {
      var ds := ImageBlobs(src.blobs[x.digest].doc, x.digest);
      if forall d :: Names(src, x.digest, d) ==> d in src.blobs {
        StageBlobs(src, dst, x);
        PinExactly(src, CopyBlobs(src, dst, ds).value, x);
      } else {
        NamedBlobs(src, x.digest);
        CopyBlobsExactly(src, dst, ds);
      }
    }
  }

  lemma NamedBlobs(src: Repo, d: Digest)
    requires d in src.blobs && src.blobs[d].Json?
    ensures forall n :: n in ImageBlobs(src.blobs[d].doc, d) <==> Names(src, d, n)
  {
    DigestsOf(src.blobs[d].doc.layers);
  }

  lemma {:induction false} DigestsOf(es: seq<Descriptor>)
    ensures forall n :: n in Digests(es) <==> exists e :: e in es && n == e.digest
  {
    if es != [] {
      DigestsOf(es[1..]);
      assert es == [es[0]] + es[1..];
    }
  }

  ghost function Taken(src: Repo, ds: seq<Digest>): map<Digest, Blob> {
    map d | d in ds && d in src.blobs :: src.blobs[d]
  }

  lemma {:induction false} CopyBlobsExactly(src: Repo, dst: Repo, ds: seq<Digest>)
    ensures CopyBlobs(src, dst, ds).Ok? <==> forall d :: d in ds ==> d in src.blobs
    ensures CopyBlobs(src, dst, ds).Ok? ==>
              CopyBlobs(src, dst, ds).value == dst.(blobs := dst.blobs + Taken(src, ds))
    decreases |ds|
  {
    if ds == [] {
      assert Taken(src, ds) == map[];
    } else {
      assert ds == [ds[0]] + ds[1..] && ds[0] in ds;
      if ds[0] in src.blobs {
        var next := dst.(blobs := dst.blobs[ds[0] := src.blobs[ds[0]]]);
        CopyBlobsExactly(src, next, ds[1..]);
        assert next.blobs + Taken(src, ds[1..]) == dst.blobs + Taken(src, ds);
      }
    }
  }

  lemma {:induction false} PinnedExactly(src: Repo, r: Repo, entries: seq<Descriptor>, pin: Digest)
    requires ReadRepoIndex(src).Ok? && forall e :: e in entries ==> e in IndexOf(src)
    ensures ReadRepoIndex(r).Ok? ==> CopyPinned(r, entries, pin).Ok?
    ensures CopyPinned(r, entries, pin).Ok? ==>
              var s := CopyPinned(r, entries, pin).value;
              s.blobs == r.blobs && (ReadRepoIndex(s).Ok? <==> ReadRepoIndex(r).Ok?)
    decreases |entries|
  {
    if entries != [] {
      assert entries[0] in entries;
      if entries[0].digest == pin && ReadRepoIndex(r).Ok? {
        PutEntryPuts(r, entries[0]);
        PinnedExactly(src, WithEntry(r, entries[0]), entries[1..], pin);
      } else if entries[0].digest != pin {
        PinnedExactly(src, r, entries[1..], pin);
      }
    }
  }

  lemma PinExactly(src: Repo, r: Repo, x: ComponentImage)
    ensures CopyPin(src, r, x).Ok? && ReadRepoIndex(r).Ok? ==>
              ReadRepoIndex(CopyPin(src, r, x).value).Ok?
    ensures CopyPin(src, r, x).Ok? && ReadRepoIndex(r).Err? ==>
              ReadRepoIndex(CopyPin(src, r, x).value).Err?
    ensures ReadRepoIndex(r).Ok? ==>
              (CopyPin(src, r, x).Ok? <==>
               (x.SeparatePin().Some? ==> x.SeparatePin().value in src.blobs && ReadRepoIndex(src).Ok?))
  {
    if x.SeparatePin().Some? {
      var pin := x.SeparatePin().value;
      CopyBlobsExactly(src, r, [pin]);
      if pin in src.blobs && ReadRepoIndex(src).Ok? {
        PinnedExactly(src, CopyBlobs(src, r, [pin]).value, IndexOf(src), pin);
      }
    }
  }

  /** Taking the image's own files gives all that is needed but for a pinned index. */
  lemma TakenIsNamed(src: Repo, d: Digest, ds: seq<Digest>)
    requires forall n :: n in ds <==> Names(src, d, n)
    ensures Taken(src, ds) == map n | n in src.blobs && Names(src, d, n) :: src.blobs[n]
  {
  }

  lemma NothingElseNeeded(src: Repo, dst: Repo, x: ComponentImage)
    requires x.SeparatePin().None?
    ensures Filled(src, dst, x).blobs == dst.blobs + map d | d in src.blobs && Names(src, x.digest, d) :: src.blobs[d]
  {
    forall d
      ensures Needs(src, x, d) <==> Names(src, x.digest, d)
    {
    }
  }

  lemma StageBlobs(src: Repo, dst: Repo, x: ComponentImage)
    requires x.digest in src.blobs && src.blobs[x.digest].Json?
    requires forall d :: Names(src, x.digest, d) ==> d in src.blobs
    ensures var r := CopyBlobs(src, dst, ImageBlobs(src.blobs[x.digest].doc, x.digest));
            && r.Ok? && r.value.indexFile == dst.indexFile
            && r.value.blobs == dst.blobs + (map d | d in src.blobs && Names(src, x.digest, d) :: src.blobs[d])
            && (x.SeparatePin().None? ==> r.value == Filled(src, dst, x))
  {
    var ds := ImageBlobs(src.blobs[x.digest].doc, x.digest);
    NamedBlobs(src, x.digest);
    CopyBlobsExactly(src, dst, ds);
    TakenIsNamed(src, x.digest, ds);
    if x.SeparatePin().None? {
      NothingElseNeeded(src, dst, x);
    }
  }

  lemma PinLeaves(src: Repo, r: Repo, x: ComponentImage)
    requires CopyPin(src, r, x).Ok?
    ensures x.SeparatePin().None? ==> CopyPin(src, r, x) == Ok(r)
    ensures x.SeparatePin().Some? ==>
              var pin := x.SeparatePin().value;
              pin in src.blobs && CopyPin(src, r, x).value.blobs == r.blobs[pin := src.blobs[pin]]
  {
    if x.SeparatePin().Some? {
      var pin := x.SeparatePin().value;
      CopyBlobsExactly(src, r, [pin]);
      PinnedExactly(src, CopyBlobs(src, r, [pin]).value, IndexOf(src), pin);
      assert CopyBlobs(src, r, [pin]).value.blobs == r.blobs[pin := src.blobs[pin]];
    }
  }

  /** Before the last entry is recorded the files are those that are needed. */
  lemma StagesLeave(src: Repo, dst: Repo, x: ComponentImage)
    requires Copyable(src, x) && src.blobs[x.digest].Json?
    requires var r := CopyBlobs(src, dst, ImageBlobs(src.blobs[x.digest].doc, x.digest));
             r.Ok? && CopyPin(src, r.value, x).Ok?
    ensures var s := CopyPin(src, CopyBlobs(src, dst, ImageBlobs(src.blobs[x.digest].doc, x.digest)).value, x).value;
            s.blobs == Filled(src, dst, x).blobs && (x.SeparatePin().None? ==> s == Filled(src, dst, x))
  {
    StageBlobs(src, dst, x);
    var r := CopyBlobs(src, dst, ImageBlobs(src.blobs[x.digest].doc, x.digest)).value;
    PinLeaves(src, r, x);
    if x.SeparatePin().Some? {
      FilledWithPin(src, dst, x, r);
    }
  }

  lemma FilledWithPin(src: Repo, dst: Repo, x: ComponentImage, r: Repo)
    requires Copyable(src, x) && x.SeparatePin().Some?
    requires r.blobs == dst.blobs + map d | d in src.blobs && Names(src, x.digest, d) :: src.blobs[d]
    ensures var pin := x.SeparatePin().value;
            Needs(src, x, pin) && r.blobs[pin := src.blobs[pin]] == Filled(src, dst, x).blobs
  {
    var pin := x.SeparatePin().value;
    assert Needs(src, x, pin);
    assert r.blobs[pin := src.blobs[pin]].Keys == Filled(src, dst, x).blobs.Keys;
  }

  /** A copy that succeeds leaves every needed file as the source has it and the others as they were, but for
      the image index that it rebuilds for a tag. */
  lemma CopyLeaves(src: Repo, dst: Repo, x: ComponentImage)
    requires CopyCachedImage(src, dst, x).Ok?
    ensures x.Tag() != "" && x.SeparatePin().None? ==> ReadTaggedIndex(Filled(src, dst, x), x.Tag()).Ok?
    ensures var s, filled := CopyCachedImage(src, dst, x).value, Filled(src, dst, x);
            if x.Tag() != "" && x.SeparatePin().None? then
              var tagged := Rebuilt(filled, x.Tag(), ExportEntry(x));
              s.blobs == filled.blobs[Sha256(Encode(tagged)) := Encode(tagged)]
            else s.blobs == filled.blobs
  {
    CopySucceeds(src, dst, x);
    StagesLeave(src, dst, x);
  }
}
