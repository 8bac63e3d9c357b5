/** When storing an image succeeds. */
module StoreOutcome {
  import opened Results
  import opened Oci
  import opened ImageStore
  import opened ImageWrites

  /** The part can be fetched: its digest is supported, and its content has the size that is stated. */
  ghost predicate Fitting(p: Descriptor) {
    p.digest.Sha256? && Length(p.digest.content) == p.size
  }

  /** The registry can serve everything that the digest names: an index whose children it can serve, or an
      image manifest with a config whose parts fit. */
  ghost predicate Servable(d: Digest)
    decreases d
  {
    && d.Sha256? && d.content.Json?
    && if d.content.doc.mediaType == "application/vnd.oci.image.index.v1+json" ||
          d.content.doc.mediaType == "application/vnd.docker.distribution.manifest.list.v2+json"
       then forall c | c in d.content.doc.manifests :: Servable(c.digest)
       else
         && d.content.doc.config.Some? && Fitting(d.content.doc.config.value)
         && forall l :: l in d.content.doc.layers ==> Fitting(l)
  }

  ghost predicate Passes(op: Op) {
    match op
    case Fetch(d) => d.Sha256?
    case FetchPart(p) => Fitting(p)
    case _ => false
  }

  lemma {:induction false} FetchesRun(ops: seq<Op>, r: Repo, x: Local)
    requires forall op :: op in ops ==> IsFetch(op)
    ensures Run(ops, r, x).Ok? <==> forall op :: op in ops ==> Passes(op)
    decreases |ops|
  {
    if ops != [] {
      assert ops == [ops[0]] + ops[1..] && ops[0] in ops && IsFetch(ops[0]);
      var next := Step(ops[0], r, x);
      assert next.Ok? <==> Passes(ops[0]);
      if next.Ok? {
        FetchesRun(ops[1..], next.value.0, next.value.1);
      }
    }
  }

  ghost predicate AllPass(ops: seq<Op>) {
    forall op :: op in ops ==> Passes(op)
  }

  lemma AllPassJoined(a: seq<Op>, b: seq<Op>)
    ensures AllPass(a + b) <==> AllPass(a) && AllPass(b)
  {
    assert forall op :: op in a + b <==> op in a || op in b;
  }

  lemma {:induction false} PartsPass(parts: seq<Descriptor>)
    ensures AllPass(PartOps(parts)) <==> forall p :: p in parts ==> Fitting(p)
  {
    if parts != [] {
      PartsPass(parts[1..]);
      AllPassJoined([FetchPart(parts[0])], PartOps(parts[1..]));
      assert parts == [parts[0]] + parts[1..];
      assert FetchPart(parts[0]) in [FetchPart(parts[0])];
    }
  }

  lemma {:induction false} BlobsPass(d: Digest)
    ensures AllPass(BlobOps(d)) <==> Servable(d)
    decreases d
  {
    RejectsUnreadable(d);
    if d.Sha256? && d.content.Json? {
      var doc := d.content.doc;
      assert Passes(Fetch(d)) && AllPass([Fetch(d)]);
      if IsIndexType(doc.mediaType) {
        ChildrenPass(d, doc.manifests);
        AllPassJoined([Fetch(d)], ChildOps(d, doc.manifests));
      } else if doc.config.Some? {
        PartsPass(Parts(doc));
        AllPassJoined([Fetch(d)], PartOps(Parts(doc)));
        assert forall p :: p in Parts(doc) <==> p == doc.config.value || p in doc.layers;
      }
    }
  }

  lemma {:induction false} ChildrenPass(d: Digest, children: seq<Descriptor>)
    requires forall c :: c in children ==> c.digest < d
    ensures AllPass(ChildOps(d, children)) <==> forall c :: c in children ==> Servable(c.digest)
    decreases d, |children|
  {
    if children != [] {
      assert children == [children[0]] + children[1..];
      BlobsPass(children[0].digest);
      ChildrenPass(d, children[1..]);
      AllPassJoined(BlobOps(children[0].digest), ChildOps(d, children[1..]));
    }
  }

  /** All fetches of an image succeed exactly when the registry can serve the image, and the other index that
      the reference pins. */
  lemma FetchesExactly(image: ComponentImage, r: Repo, x: Local)
    ensures Run(FetchOps(image), r, x).Ok? <==>
            Servable(image.digest) && (image.SeparatePin().Some? ==> image.SeparatePin().value.Sha256?)
  {
    FetchOpsFetch(image);
    FetchesRun(FetchOps(image), r, x);
    BlobsPass(image.digest);
    if image.SeparatePin().Some? {
      var op := Fetch(image.SeparatePin().value);
      AllPassJoined([op], BlobOps(image.digest));
      assert op in [op];
    } else {
      assert FetchOps(image) == BlobOps(image.digest);
    }
  }

  // ---- recording

  lemma Loads(entry: Descriptor, r: Repo, x: Local)
    ensures Run([LoadRepo, StoreRepo(entry)], r, x).Ok? <==> ReadRepoIndex(r).Ok?
    ensures ReadRepoIndex(r).Ok? ==> Run([LoadRepo, StoreRepo(entry)], r, x).value.0 == WithEntry(r, entry)
  {
    var ops := [LoadRepo, StoreRepo(entry)];
    assert ops[..2] == ops && ops[..0] == [];
    RunSnoc(ops, 0, r, x);
    RunSnoc(ops, 1, r, x);
  }

  lemma RecordsPinned(image: ComponentImage, m: Repo, x: Local)
    requires image.SeparatePin().Some? && image.digest.Sha256?
    ensures Run(RecordOps(image), m, x).Ok? <==> ReadRepoIndex(m).Ok?
  {
    var entry := ImageEntry(image);
    var pinEntry := RemoteDescriptor(image.SeparatePin().value, None);
    if image.Tag() == "" {
      Loads(pinEntry, m, x);
    } else {
      var tagged := pinEntry.(annotations := map[REF_NAME := image.Tag()]);
      var a, b := [LoadRepo, StoreRepo(entry)], [LoadRepo, StoreRepo(tagged)];
      assert RecordOps(image) == a + b;
      RunAppend(a, b, m, x);
      Loads(entry, m, x);
      if ReadRepoIndex(m).Ok? {
        PutIndexPuts(m, entry);
        Loads(tagged, WithEntry(m, entry), Run(a, m, x).value.1);
      }
    }
  }

  lemma RecordsTagged(image: ComponentImage, m: Repo, x: Local)
    requires image.SeparatePin().None? && image.Tag() != ""
    ensures Run(RecordOps(image), m, x).Ok? <==> ReadTaggedIndex(m, image.Tag()).Ok?
  {
    var ops := RecordOps(image);
    assert ops[..4] == ops && ops[..0] == [];
    RunSnoc(ops, 0, m, x);
    RunSnoc(ops, 1, m, x);
    RunSnoc(ops, 2, m, x);
    RunSnoc(ops, 3, m, x);
  }

  lemma RecordsExactly(image: ComponentImage, m: Repo, x: Local)
    requires image.digest.Sha256?
    ensures Run(RecordOps(image), m, x).Ok? <==>
            if image.Tag() != "" && image.SeparatePin().None? then ReadTaggedIndex(m, image.Tag()).Ok?
            else ReadRepoIndex(m).Ok?
  {
    if image.SeparatePin().Some? {
      RecordsPinned(image, m, x);
    } else if image.Tag() != "" {
      RecordsTagged(image, m, x);
    } else {
      Loads(ImageEntry(image), m, x);
    }
  }

  /** Storing an image succeeds exactly when the registry can serve it and the index it is recorded in can be
      read: that of the tag, or for an untagged or pinned reference that of the repository. */
  lemma StoresExactly(r: Repo, image: ComponentImage)
    ensures WriteImage(r, image).Ok? <==>
            && Servable(image.digest) && (image.SeparatePin().Some? ==> image.SeparatePin().value.Sha256?)
            && if image.Tag() != "" && image.SeparatePin().None?
               then ReadTaggedIndex(AfterFetch(r, image), image.Tag()).Ok? else ReadRepoIndex(r).Ok?
  {
    RunAppend(FetchOps(image), RecordOps(image), r, NO_LOCAL);
    FetchesExactly(image, r, NO_LOCAL);
    FetchOpsFetch(image);
    var m := Run(FetchOps(image), r, NO_LOCAL);
    if m.Ok? {
      FetchingGrows(FetchOps(image), r, NO_LOCAL);
      RecordsExactly(image, m.value.0, m.value.1);
    }
  }
}
