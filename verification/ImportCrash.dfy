/** An import that stops after any number of publications leaves a whole cache, and running it again
    ends where an uninterrupted run ends. */
module ImportCrash {
  import opened Results
  import opened Oci
  import opened BundleImport

  // ---- where an import ends, said without running it

  ghost function Existing(cache: Files, src: Files, repo: string): Index
    requires Whole(cache) && Whole(src) && IndexFile(repo) in src
  {
    if IndexFile(repo) in cache then Decode(cache[IndexFile(repo)].doc)
    else Index(2, src[IndexFile(repo)].doc.mediaType, [])
  }

  ghost function Incoming(src: Files, repo: string): seq<Descriptor>
    requires Whole(src) && IndexFile(repo) in src
  {
    src[IndexFile(repo)].doc.manifests
  }

  /** Digests that the merged index of a repository names for incoming entries. */
  ghost predicate MergedDigest(cache: Files, src: Files, repo: string, d: Digest)
    requires Whole(cache) && Whole(src)
  {
    IndexFile(repo) in src &&
    exists e | e in Incoming(src, repo) :: MergedEntry(Existing(cache, src, repo).manifests, e).digest == d
  }

  /** The file that an import leaves under a name. */
  ghost function Final(cache: Files, src: Files, n: Name): Option<Blob>
    requires Whole(cache) && Whole(src)
  {
    if n.BlobFile? then
      if n.digest.Sha256? && (n in cache || n in src || MergedDigest(cache, src, n.repo, n.digest))
      then Some(n.digest.content) else None
    else if n in src then
      if n.IndexFile? then
        var x := Existing(cache, src, n.repo);
        Some(Encode(x.(manifests := MergedList(x.manifests, Incoming(src, n.repo)))))
      else Some(src[n])
    else if n in cache then Some(cache[n]) else None
  }

  ghost function At(m: Files, n: Name): Option<Blob> {
    if n in m then Some(m[n]) else None
  }

  /** Each file is as it was or as it will be. */
  ghost predicate Between(cache: Files, src: Files, s: Files)
    requires Whole(cache) && Whole(src)
  {
    forall n {:trigger At(s, n)} :: At(s, n) == At(cache, n) || At(s, n) == Final(cache, src, n)
  }

  ghost predicate Good(cache: Files, src: Files, s: Files)
    requires Whole(cache) && Whole(src)
  {
    Whole(s) && Between(cache, src, s)
  }

  /** An import under way that was never in a bad state. */
  ghost predicate GoodWork(cache: Files, src: Files, w: Work)
    requires Whole(cache) && Whole(src)
  {
    && w.ok && w.cache == Replay(cache, w.log)
    && forall k :: 0 <= k <= |w.log| ==> Good(cache, src, Replay(cache, w.log[..k]))
  }

  lemma GoodNow(cache: Files, src: Files, w: Work)
    requires Whole(cache) && Whole(src) && GoodWork(cache, src, w)
    ensures Good(cache, src, w.cache)
  {
    assert w.log[..|w.log|] == w.log;
  }

  lemma PublishGood(cache: Files, src: Files, w: Work, n: Name, b: Blob)
    requires Whole(cache) && Whole(src) && GoodWork(cache, src, w)
    requires Final(cache, src, n) == Some(b) && Whole(w.cache[n := b])
    ensures GoodWork(cache, src, Publish(w, n, b))
  {
    var x := Publish(w, n, b);
    GoodNow(cache, src, w);
    assert x.log[..|x.log| - 1] == w.log;
    forall m
      ensures At(x.cache, m) == At(cache, m) || At(x.cache, m) == Final(cache, src, m)
    {
      assert m != n ==> At(x.cache, m) == At(w.cache, m);
    }
    forall k | 0 <= k <= |x.log|
      ensures Good(cache, src, Replay(cache, x.log[..k]))
    {
      if k <= |w.log| {
        assert x.log[..k] == w.log[..k];
      } else {
        assert x.log[..k] == x.log;
      }
    }
  }

  lemma BlobKeepsWhole(m: Files, n: Name, b: Blob)
    requires Whole(m) && !n.IndexFile?
    requires n.BlobFile? ==> n.digest.Sha256? && b == n.digest.content
    ensures Whole(m[n := b])
  {
    forall i | i in m && i.IndexFile?
      ensures WholeIndex(m[n := b], i.repo, m[i].doc.manifests)
    {
    }
  }

  // ---- one index

  lemma {:induction false} AbsorbNone(w: Work, src: Files, repo: string, priors: seq<Descriptor>, entry: Descriptor)
    requires forall p :: p in priors ==> !Merges(p, entry)
    ensures AbsorbAll(w, src, repo, priors, entry) == (w, entry)
    decreases |priors|
  {
    if priors != [] {
      assert priors[0] in priors;
      AbsorbNone(w, src, repo, priors[1..], entry);
    }
  }

  ghost predicate MergesSome(priors: seq<Descriptor>, entry: Descriptor) {
    var p := Resolve(priors, entry.Key());
    p.Some? && Merges(p.value, entry)
  }

  /** The blobs that a merge reads. */
  ghost predicate Readable(m: Files, src: Files, repo: string, p: Descriptor, entry: Descriptor) {
    && p.digest.Sha256? && p.digest.content.Json? && At(m, BlobFile(repo, p.digest)) == Some(p.digest.content)
    && entry.digest.Sha256? && entry.digest.content.Json?
    && At(src, BlobFile(repo, entry.digest)) == Some(entry.digest.content)
  }

  /** With one entry per tag the inner loop merges at most once. */
  lemma {:induction false} AbsorbOnce(w: Work, src: Files, repo: string, priors: seq<Descriptor>, entry: Descriptor)
    requires w.ok && UniqueKeys(priors)
    requires forall p :: p in priors && Merges(p, entry) ==> Readable(w.cache, src, repo, p, entry)
    ensures var e := MergedEntry(priors, entry);
            AbsorbAll(w, src, repo, priors, entry) ==
            (if MergesSome(priors, entry) then Publish(w, BlobFile(repo, e.digest), e.digest.content) else w, e)
    decreases |priors|
  {
    if priors != [] {
      var p := priors[0];
      assert p in priors;
      if Merges(p, entry) {
        assert p.Key() == entry.Key();
        var (x, e) := Absorb(w, src, repo, p, entry);
        forall q | q in priors[1..]
          ensures !Merges(q, e)
        {
          var i :| 0 <= i < |priors[1..]| && priors[1..][i] == q;
          assert priors[0].Key() != priors[i + 1].Key();
        }
        AbsorbNone(x, src, repo, priors[1..], e);
      } else {
        AbsorbOnce(w, src, repo, priors[1..], entry);
        if p.Key() == entry.Key() {
          forall q | q in priors[1..]
            ensures q.Key() != entry.Key()
          {
            var i :| 0 <= i < |priors[1..]| && priors[1..][i] == q;
            assert priors[0].Key() != priors[i + 1].Key();
          }
          KeyIndexIs(priors[1..], entry.Key(), |priors[1..]|);
        }
      }
    }
  }

  /** Only blobs of one repository were added. */
  ghost predicate OnlyBlobs(m: Files, s: Files, repo: string) {
    forall n {:trigger At(s, n)} :: At(s, n) == At(m, n) || (n.BlobFile? && n.repo == repo && n in s)
  }

  ghost predicate NoManifests(log: seq<Publication>) {
    forall p :: p in log ==> !p.name.Manifest?
  }

  lemma KeepsWholeIndex(m: Files, s: Files, repo: string, ms: seq<Descriptor>)
    requires WholeIndex(m, repo, ms) && OnlyBlobs(m, s, repo)
    ensures WholeIndex(s, repo, ms)
  {
    forall e | e in ms
      ensures BlobFile(repo, e.digest) in s
    {
      assert At(s, BlobFile(repo, e.digest)) == At(m, BlobFile(repo, e.digest)) || BlobFile(repo, e.digest) in s;
    }
  }

  /** The loop over one bundle index, stopped before the entries in rest. */
  ghost predicate Merging(cache: Files, src: Files, repo: string, w: Work, existing: seq<Descriptor>,
                          rest: seq<Descriptor>)
    requires Whole(cache) && Whole(src)
  {
    && IndexFile(repo) in src && GoodWork(cache, src, w) && NoManifests(w.log)
    && WholeIndex(w.cache, repo, existing)
    && UniqueKeys(rest)
    && forall e :: e in rest ==>
         && e in Incoming(src, repo) && e.digest.Sha256?
         && At(w.cache, BlobFile(repo, e.digest)).Some?
         && Resolve(existing, e.Key()) == Resolve(Existing(cache, src, repo).manifests, e.Key())
  }

  lemma EntryReadable(cache: Files, src: Files, repo: string, w: Work, existing: seq<Descriptor>,
                      rest: seq<Descriptor>, p: Descriptor)
    requires Whole(cache) && Whole(src) && Merging(cache, src, repo, w, existing, rest) && rest != []
    requires p in existing && Merges(p, rest[0])
    ensures Readable(w.cache, src, repo, p, rest[0])
  {
    GoodNow(cache, src, w);
    assert rest[0] in rest && BlobFile(repo, p.digest) in w.cache && BlobFile(repo, rest[0].digest) in src;
  }

  /** One incoming entry: a joined image index is published before the entry that names it. */
  lemma EntryMerges(cache: Files, src: Files, repo: string, w: Work, existing: seq<Descriptor>, rest: seq<Descriptor>)
    requires Whole(cache) && Whole(src) && Merging(cache, src, repo, w, existing, rest) && rest != []
    ensures var (x, e) := AbsorbAll(w, src, repo, existing, rest[0]);
            && e == MergedEntry(existing, rest[0])
            && Merging(cache, src, repo, x, Upsert(existing, e), rest[1..])
            && OnlyBlobs(w.cache, x.cache, repo)
  {
    var head, e := rest[0], MergedEntry(existing, rest[0]);
    assert head in rest;
    forall p | p in existing && Merges(p, head)
      ensures Readable(w.cache, src, repo, p, head)
    {
      EntryReadable(cache, src, repo, w, existing, rest, p);
    }
    AbsorbOnce(w, src, repo, existing, head);
    JoinPublished(cache, src, repo, w, existing, rest);
    var x := if MergesSome(existing, head) then Publish(w, BlobFile(repo, e.digest), e.digest.content) else w;
    KeepsWholeIndex(w.cache, x.cache, repo, existing);
    EntryRecorded(src, repo, w.cache, x.cache, existing, head);
    RestMerges(cache, src, repo, w, x, existing, rest);
  }

  lemma JoinPublished(cache: Files, src: Files, repo: string, w: Work, existing: seq<Descriptor>, rest: seq<Descriptor>)
    requires Whole(cache) && Whole(src) && Merging(cache, src, repo, w, existing, rest) && rest != []
    requires forall p :: p in existing && Merges(p, rest[0]) ==> Readable(w.cache, src, repo, p, rest[0])
    ensures var e := MergedEntry(existing, rest[0]);
            var x := if MergesSome(existing, rest[0])
                     then Publish(w, BlobFile(repo, e.digest), e.digest.content) else w;
            e.digest.Sha256? && GoodWork(cache, src, x) && NoManifests(x.log) && OnlyBlobs(w.cache, x.cache, repo) &&
            BlobFile(repo, e.digest) in x.cache
  {
    assert rest[0] in rest && At(w.cache, BlobFile(repo, rest[0].digest)).Some?;
    if MergesSome(existing, rest[0]) {
      MergePublished(cache, src, repo, w, existing, rest);
    }
  }

  lemma MergePublished(cache: Files, src: Files, repo: string, w: Work, existing: seq<Descriptor>,
                       rest: seq<Descriptor>)
    requires Whole(cache) && Whole(src) && Merging(cache, src, repo, w, existing, rest) && rest != []
    requires forall p :: p in existing && Merges(p, rest[0]) ==> Readable(w.cache, src, repo, p, rest[0])
    requires MergesSome(existing, rest[0])
    ensures var e := MergedEntry(existing, rest[0]);
            && e.digest.Sha256?
            && var x := Publish(w, BlobFile(repo, e.digest), e.digest.content);
               GoodWork(cache, src, x) && NoManifests(x.log) && OnlyBlobs(w.cache, x.cache, repo)
  {
    var head, e := rest[0], MergedEntry(existing, rest[0]);
    assert head in rest;
    var i := KeyIndex(existing, head.Key());
    assert existing[i] in existing && Readable(w.cache, src, repo, existing[i], head);
    assert MergedEntry(Existing(cache, src, repo).manifests, head) == e;
    assert MergedDigest(cache, src, repo, e.digest);
    GoodNow(cache, src, w);
    BlobKeepsWhole(w.cache, BlobFile(repo, e.digest), e.digest.content);
    PublishGood(cache, src, w, BlobFile(repo, e.digest), e.digest.content);
  }

  lemma RestMerges(cache: Files, src: Files, repo: string, w: Work, x: Work, existing: seq<Descriptor>,
                   rest: seq<Descriptor>)
    requires Whole(cache) && Whole(src) && Merging(cache, src, repo, w, existing, rest) && rest != []
    requires OnlyBlobs(w.cache, x.cache, repo)
    ensures forall r :: r in rest[1..] ==>
              && r in rest && At(x.cache, BlobFile(repo, r.digest)).Some?
              && Resolve(Upsert(existing, MergedEntry(existing, rest[0])), r.Key()) ==
                 Resolve(Existing(cache, src, repo).manifests, r.Key())
    ensures UniqueKeys(rest[1..])
  {
    forall r | r in rest[1..]
      ensures r in rest && At(x.cache, BlobFile(repo, r.digest)).Some?
      ensures Resolve(Upsert(existing, MergedEntry(existing, rest[0])), r.Key()) ==
              Resolve(Existing(cache, src, repo).manifests, r.Key())
    {
      var i :| 0 <= i < |rest[1..]| && rest[1..][i] == r;
      assert rest[i + 1] == r && rest[0].Key() != rest[i + 1].Key();
      MergedEntryKey(existing, rest[0]);
      UpsertIsMapUpdate(existing, MergedEntry(existing, rest[0]), r.Key());
      assert At(w.cache, BlobFile(repo, r.digest)).Some?;
      assert At(x.cache, BlobFile(repo, r.digest)) == At(x.cache, BlobFile(repo, r.digest));
    }
  }

  lemma EntryRecorded(src: Files, repo: string, m: Files, s: Files, existing: seq<Descriptor>, head: Descriptor)
    requires Whole(src) && IndexFile(repo) in src && head in Incoming(src, repo)
    requires WholeIndex(s, repo, existing) && BlobFile(repo, MergedEntry(existing, head).digest) in s
    requires MergedEntry(existing, head).digest.Sha256?
    requires forall p :: p in existing && Merges(p, head) ==> Readable(m, src, repo, p, head)
    ensures WholeIndex(s, repo, Upsert(existing, MergedEntry(existing, head)))
  {
    var e := MergedEntry(existing, head);
    UpsertIsMapUpdate(existing, e, head.Key());
    if MergesSome(existing, head) {
      var i := KeyIndex(existing, head.Key());
      assert existing[i] in existing;
    }
    forall r | r in Upsert(existing, e)
      ensures r == e || r in existing
    {
    }
  }

  lemma {:induction false} EntriesMerge(cache: Files, src: Files, repo: string, w: Work,
                                        existing: seq<Descriptor>, rest: seq<Descriptor>)
    requires Whole(cache) && Whole(src) && Merging(cache, src, repo, w, existing, rest)
    ensures var (x, ms) := MergeEntries(w, src, repo, existing, rest);
            && ms == MergedList(existing, rest)
            && Merging(cache, src, repo, x, ms, [])
            && OnlyBlobs(w.cache, x.cache, repo)
    decreases |rest|
  {
    if rest != [] {
      EntryMerges(cache, src, repo, w, existing, rest);
      var (x, e) := AbsorbAll(w, src, repo, existing, rest[0]);
      EntriesMerge(cache, src, repo, x, Upsert(existing, e), rest[1..]);
      var y := MergeEntries(x, src, repo, Upsert(existing, e), rest[1..]).0;
      forall n
        ensures At(y.cache, n) == At(w.cache, n) || (n.BlobFile? && n.repo == repo && n in y.cache)
      {
        assert At(x.cache, n) == At(x.cache, n);
      }
    }
  }

  /** All the bundle's blobs of a repository are in. */
  ghost predicate BlobsIn(src: Files, m: Files) {
    forall n :: n in src && n.BlobFile? ==> n in m
  }

  lemma IndexMerges(cache: Files, src: Files, files: seq<File>, w: Work, repo: string)
    requires Whole(cache) && WholeBundle(src, files) && IndexFile(repo) in src
    requires GoodWork(cache, src, w) && NoManifests(w.log) && BlobsIn(src, w.cache)
    requires At(w.cache, IndexFile(repo)) == At(cache, IndexFile(repo))
    ensures var x := MergeIndex(w, src, repo);
            && GoodWork(cache, src, x) && NoManifests(x.log) && BlobsIn(src, x.cache)
            && At(x.cache, IndexFile(repo)) == Final(cache, src, IndexFile(repo))
            && forall n {:trigger At(x.cache, n)} :: At(x.cache, n) == At(w.cache, n) || n == IndexFile(repo) ||
                 (n.BlobFile? && n in x.cache)
  {
    var n := IndexFile(repo);
    GoodNow(cache, src, w);
    var existing, incoming := Existing(cache, src, repo), Incoming(src, repo);
    assert At(w.cache, n) == At(cache, n);
    assert WholeIndex(w.cache, repo, existing.manifests);
    forall e | e in incoming
      ensures At(w.cache, BlobFile(repo, e.digest)).Some?
    {
      assert BlobFile(repo, e.digest) in src;
    }
    assert ExistingIndex(w.cache, repo, src[n].doc.mediaType) == Some(existing);
    EntriesMerge(cache, src, repo, w, existing.manifests, incoming);
    var (x, ms) := MergeEntries(w, src, repo, existing.manifests, incoming);
    GoodNow(cache, src, x);
    var made := Encode(existing.(manifests := ms));
    IndexKeepsWhole(x.cache, repo, made);
    PublishGood(cache, src, x, n, made);
    var y := Publish(x, n, made);
    forall m
      ensures At(y.cache, m) == At(w.cache, m) || m == n || (m.BlobFile? && m in y.cache)
      ensures m in src && m.BlobFile? ==> m in y.cache
    {
      assert At(x.cache, m) == At(x.cache, m);
      assert m != n ==> At(y.cache, m) == At(x.cache, m);
    }
  }

  lemma IndexKeepsWhole(m: Files, repo: string, b: Blob)
    requires Whole(m) && b.Json? && WholeIndex(m, repo, b.doc.manifests)
    ensures Whole(m[IndexFile(repo) := b])
  {
    var s := m[IndexFile(repo) := b];
    forall i | i in s && i.IndexFile?
      ensures s[i].Json? && WholeIndex(s, i.repo, s[i].doc.manifests)
    {
    }
  }

  // ---- the three rounds

  ghost predicate IsFinal(cache: Files, src: Files, m: Files, n: Name)
    requires Whole(cache) && Whole(src)
  {
    At(m, n) == Final(cache, src, n)
  }

  /** Files that are as they will be stay so. */
  ghost predicate KeepsFinal(cache: Files, src: Files, m: Files, s: Files)
    requires Whole(cache) && Whole(src)
  {
    forall n :: IsFinal(cache, src, m, n) ==> IsFinal(cache, src, s, n)
  }

  lemma CopyInstalls(cache: Files, src: Files, w: Work, f: File)
    requires Whole(cache) && Whole(src) && GoodWork(cache, src, w) && !f.name.IndexFile?
    requires f.name in src && src[f.name] == f.promised
    ensures var x := Install(w, src, f);
            && x == Publish(w, f.name, src[f.name]) && GoodWork(cache, src, x)
            && KeepsFinal(cache, src, w.cache, x.cache) && IsFinal(cache, src, x.cache, f.name)
  {
    var n := f.name;
    GoodNow(cache, src, w);
    BlobKeepsWhole(w.cache, n, src[n]);
    PublishGood(cache, src, w, n, src[n]);
    var x := Publish(w, n, src[n]);
    forall m | IsFinal(cache, src, w.cache, m)
      ensures IsFinal(cache, src, x.cache, m)
    {
      assert m != n ==> At(x.cache, m) == At(w.cache, m);
    }
  }

  lemma {:induction false} ImmutableRound(cache: Files, src: Files, w: Work, todo: seq<File>)
    requires Whole(cache) && Whole(src) && GoodWork(cache, src, w) && NoManifests(w.log)
    requires forall f :: f in todo ==> f.name in src && src[f.name] == f.promised
    ensures var x := InstallRound(w, src, todo, Immutable);
            && GoodWork(cache, src, x) && NoManifests(x.log) && KeepsFinal(cache, src, w.cache, x.cache)
            && (forall n: Name :: n.IndexFile? ==> At(x.cache, n) == At(w.cache, n))
            && forall f :: f in todo && RoundOf(f.name) == Immutable ==> IsFinal(cache, src, x.cache, f.name)
    decreases |todo|
  {
    if todo != [] {
      var f := todo[0];
      assert f in todo;
      if RoundOf(f.name) == Immutable {
        CopyInstalls(cache, src, w, f);
        var x := Install(w, src, f);
        ImmutableRound(cache, src, x, todo[1..]);
      } else {
        ImmutableRound(cache, src, w, todo[1..]);
      }
    }
  }

  lemma MergeKeepsFinal(cache: Files, src: Files, files: seq<File>, w: Work, repo: string)
    requires Whole(cache) && WholeBundle(src, files) && IndexFile(repo) in src
    requires GoodWork(cache, src, w) && NoManifests(w.log) && BlobsIn(src, w.cache)
    requires At(w.cache, IndexFile(repo)) == At(cache, IndexFile(repo))
    ensures KeepsFinal(cache, src, w.cache, MergeIndex(w, src, repo).cache)
  {
    IndexMerges(cache, src, files, w, repo);
    var x := MergeIndex(w, src, repo);
    GoodNow(cache, src, x);
    forall n | IsFinal(cache, src, w.cache, n)
      ensures IsFinal(cache, src, x.cache, n)
    {
      assert At(x.cache, n) == At(w.cache, n) || n == IndexFile(repo) || (n.BlobFile? && n in x.cache);
    }
  }

  lemma {:induction false} IndexRound(cache: Files, src: Files, files: seq<File>, w: Work, todo: seq<File>)
    requires Whole(cache) && WholeBundle(src, files) && GoodWork(cache, src, w) && NoManifests(w.log)
    requires BlobsIn(src, w.cache) && Distinct(todo)
    requires forall f :: f in todo ==> f.name in src && (f.name.IndexFile? ==> At(w.cache, f.name) == At(cache, f.name))
    ensures var x := InstallRound(w, src, todo, Indexes);
            && GoodWork(cache, src, x) && NoManifests(x.log) && KeepsFinal(cache, src, w.cache, x.cache)
            && forall f :: f in todo && RoundOf(f.name) == Indexes ==> IsFinal(cache, src, x.cache, f.name)
    decreases |todo|
  {
    if todo != [] {
      var f := todo[0];
      assert f in todo && forall i :: 0 <= i < |todo[1..]| ==> todo[1..][i] == todo[i + 1];
      if RoundOf(f.name) == Indexes {
        IndexMerges(cache, src, files, w, f.name.repo);
        MergeKeepsFinal(cache, src, files, w, f.name.repo);
        var x := Install(w, src, f);
        forall g | g in todo[1..] && g.name.IndexFile?
          ensures At(x.cache, g.name) == At(cache, g.name)
        {
          assert g in todo && g.name != f.name;
          assert At(x.cache, g.name) == At(w.cache, g.name);
        }
        IndexRound(cache, src, files, x, todo[1..]);
      } else {
        IndexRound(cache, src, files, w, todo[1..]);
      }
    }
  }

  lemma {:induction false} ManifestRound(cache: Files, src: Files, w: Work, todo: seq<File>)
    requires Whole(cache) && Whole(src) && GoodWork(cache, src, w)
    requires forall f :: f in todo ==> f.name in src && src[f.name] == f.promised
    ensures var x := InstallRound(w, src, todo, Manifests);
            && GoodWork(cache, src, x) && KeepsFinal(cache, src, w.cache, x.cache)
            && forall f :: f in todo && RoundOf(f.name) == Manifests ==> IsFinal(cache, src, x.cache, f.name)
    decreases |todo|
  {
    if todo != [] {
      var f := todo[0];
      assert f in todo;
      if RoundOf(f.name) == Manifests {
        CopyInstalls(cache, src, w, f);
        ManifestRound(cache, src, Install(w, src, f), todo[1..]);
      } else {
        ManifestRound(cache, src, w, todo[1..]);
      }
    }
  }

  /** The third round publishes manifests only. */
  lemma {:induction false} ManifestLog(src: Files, w: Work, todo: seq<File>)
    ensures var x := InstallRound(w, src, todo, Manifests);
            w.log <= x.log && forall i :: |w.log| <= i < |x.log| ==> x.log[i].name.Manifest?
    decreases |todo|
  {
    if todo != [] {
      ManifestLog(src, if RoundOf(todo[0].name) == Manifests then Install(w, src, todo[0]) else w, todo[1..]);
    }
  }

  /** Blobs and indexes after the first two rounds of an import. */
  ghost function BeforeManifests(cache: Files, src: Files, files: seq<File>): Work {
    InstallRound(InstallRound(Work(cache, [], true), src, files, Immutable), src, files, Indexes)
  }

  lemma TwoRounds(cache: Files, src: Files, files: seq<File>)
    requires Whole(cache) && WholeBundle(src, files)
    ensures var w := BeforeManifests(cache, src, files);
            && GoodWork(cache, src, w) && NoManifests(w.log)
            && forall n :: n in src && !n.Manifest? ==> IsFinal(cache, src, w.cache, n)
  {
    var start := Work(cache, [], true);
    assert Good(cache, src, cache);
    ImmutableRound(cache, src, start, files);
    var blobs := InstallRound(start, src, files, Immutable);
    forall n | n in src && n.BlobFile?
      ensures n in blobs.cache
    {
      var f :| f in files && f.name == n;
      assert IsFinal(cache, src, blobs.cache, n);
    }
    IndexRound(cache, src, files, blobs, files);
    var w := BeforeManifests(cache, src, files);
    forall n | n in src && !n.Manifest?
      ensures IsFinal(cache, src, w.cache, n)
    {
      var f :| f in files && f.name == n;
      assert RoundOf(n) == Immutable ==> IsFinal(cache, src, blobs.cache, n);
    }
  }

  /** The joined indexes that a merged index names are there. */
  lemma MergedPresent(cache: Files, src: Files, m: Files, repo: string, d: Digest)
    requires Whole(cache) && Whole(src) && Whole(m) && MergedDigest(cache, src, repo, d)
    requires IsFinal(cache, src, m, IndexFile(repo))
    ensures BlobFile(repo, d) in m
  {
    var ex := Existing(cache, src, repo).manifests;
    var e :| e in Incoming(src, repo) && MergedEntry(ex, e).digest == d;
    var ms := MergedList(ex, Incoming(src, repo));
    MergedListHas(ex, Incoming(src, repo), e);
    assert At(m, IndexFile(repo)) == Final(cache, src, IndexFile(repo));
    assert IndexFile(repo) in m && m[IndexFile(repo)].doc.manifests == ms;
    NamedIsPresent(m, repo, ms, e.Key(), MergedEntry(ex, e));
  }

  lemma NamedIsPresent(m: Files, repo: string, ms: seq<Descriptor>, key: EntryKey, e: Descriptor)
    requires WholeIndex(m, repo, ms) && Resolve(ms, key) == Some(e)
    ensures BlobFile(repo, e.digest) in m
  {
    assert ms[KeyIndex(ms, key)] in ms;
  }

  lemma AllFinal(cache: Files, src: Files, m: Files)
    requires Whole(cache) && Whole(src) && Good(cache, src, m)
    requires forall n :: n in src ==> IsFinal(cache, src, m, n)
    ensures forall n :: IsFinal(cache, src, m, n)
  {
    forall n
      ensures IsFinal(cache, src, m, n)
    {
      assert At(m, n) == At(cache, n) || At(m, n) == Final(cache, src, n);
      if n.BlobFile? && n.digest.Sha256? && MergedDigest(cache, src, n.repo, n.digest) {
        MergedPresent(cache, src, m, n.repo, n.digest);
        assert BlobFile(n.repo, n.digest) == n;
      }
    }
  }

  /** An import of a whole bundle into a whole cache succeeds, is never in a bad state, and leaves
      exactly the final files. */
  lemma ImportEnds(cache: Files, src: Files, files: seq<File>)
    requires Whole(cache) && WholeBundle(src, files)
    ensures GoodWork(cache, src, Import(cache, src, files))
    ensures forall n :: IsFinal(cache, src, Import(cache, src, files).cache, n)
  {
    TwoRounds(cache, src, files);
    var w, x := BeforeManifests(cache, src, files), Import(cache, src, files);
    ManifestRound(cache, src, w, files);
    GoodNow(cache, src, x);
    forall n | n in src
      ensures IsFinal(cache, src, x.cache, n)
    {
      var f :| f in files && f.name == n;
      assert !n.Manifest? ==> IsFinal(cache, src, w.cache, n);
    }
    AllFinal(cache, src, x.cache);
  }

  // ---- stopping early

  /** The cache when the import stops after k publications. */
  ghost function StoppedAfter(cache: Files, src: Files, files: seq<File>, k: nat): Files
    requires k <= |Import(cache, src, files).log|
  {
    Replay(cache, Import(cache, src, files).log[..k])
  }

  /** Stopped anywhere, every entry of every index names a blob that is there, and every tag that
      resolved before still does. */
  lemma StoppedIsWhole(cache: Files, src: Files, files: seq<File>, k: nat, repo: string, tag: string)
    requires Whole(cache) && WholeBundle(src, files) && k <= |Import(cache, src, files).log| && tag != ""
    ensures var s := StoppedAfter(cache, src, files, k);
            && Whole(s)
            && (IndexFile(repo) in cache && Resolve(cache[IndexFile(repo)].doc.manifests, ByTag(tag)).Some? ==>
                  IndexFile(repo) in s && Resolve(s[IndexFile(repo)].doc.manifests, ByTag(tag)).Some?)
  {
    ImportEnds(cache, src, files);
    var s, n := StoppedAfter(cache, src, files, k), IndexFile(repo);
    assert Good(cache, src, s);
    assert At(s, n) == At(cache, n) || At(s, n) == Final(cache, src, n);
    if n in cache && n in src {
      MergeKeepsTags(cache[n].doc.manifests, Incoming(src, repo), tag);
    }
  }

  lemma {:induction false} ReplayKeepsOthers(cache: Files, log: seq<Publication>, cut: nat, n: Name)
    requires cut <= |log| && forall i :: cut <= i < |log| ==> log[i].name != n
    ensures At(Replay(cache, log), n) == At(Replay(cache, log[..cut]), n)
    decreases |log|
  {
    if cut < |log| {
      assert log[..|log| - 1][..cut] == log[..cut];
      ReplayKeepsOthers(cache, log[..|log| - 1], cut, n);
    } else {
      assert log[..cut] == log;
    }
  }

  /** Stopped before the end, a cached manifest has changed only when all blobs and indexes are in. */
  lemma ManifestsComeLast(cache: Files, src: Files, files: seq<File>, k: nat, manifest: Name, n: Name)
    requires Whole(cache) && WholeBundle(src, files) && k <= |Import(cache, src, files).log|
    requires manifest.Manifest? && !n.Manifest?
    requires At(StoppedAfter(cache, src, files, k), manifest) != At(cache, manifest)
    ensures At(StoppedAfter(cache, src, files, k), n) == Final(cache, src, n)
  {
    var w, x := BeforeManifests(cache, src, files), Import(cache, src, files);
    LastRound(cache, src, files);
    if k < |w.log| {
      assert x.log[..k] == w.log[..k];
      assert forall i :: 0 <= i < k ==> w.log[..k][i] in w.log;
      ReplayKeepsOthers(cache, x.log[..k], 0, manifest);
    } else {
      assert x.log[..k][..|w.log|] == w.log;
      ReplayKeepsOthers(cache, x.log[..k], |w.log|, n);
    }
  }

  /** The last round publishes manifests only, over final blobs and indexes. */
  lemma LastRound(cache: Files, src: Files, files: seq<File>)
    requires Whole(cache) && WholeBundle(src, files)
    ensures var w, x := BeforeManifests(cache, src, files), Import(cache, src, files);
            && NoManifests(w.log) && w.log <= x.log
            && (forall i :: |w.log| <= i < |x.log| ==> x.log[i].name.Manifest?)
            && forall n: Name :: !n.Manifest? ==> At(Replay(cache, w.log), n) == Final(cache, src, n)
  {
    TwoRounds(cache, src, files);
    ImportEnds(cache, src, files);
    var w, x := BeforeManifests(cache, src, files), Import(cache, src, files);
    ManifestRound(cache, src, w, files);
    ManifestLog(src, w, files);
    assert x.log[..|w.log|] == w.log && x.log[..|x.log|] == x.log;
    forall n: Name | !n.Manifest?
      ensures At(Replay(cache, w.log), n) == Final(cache, src, n)
    {
      ReplayKeepsOthers(cache, x.log, |w.log|, n);
      assert IsFinal(cache, src, x.cache, n);
    }
  }

  /** From a state on the way, the merged index of a repository and the digests it names are the same. */
  lemma SameMerge(cache: Files, src: Files, files: seq<File>, s: Files, repo: string)
    requires Whole(cache) && WholeBundle(src, files) && Good(cache, src, s) && IndexFile(repo) in src
    ensures Final(s, src, IndexFile(repo)) == Final(cache, src, IndexFile(repo))
    ensures forall e :: e in Incoming(src, repo) ==>
              MergedEntry(Existing(s, src, repo).manifests, e) == MergedEntry(Existing(cache, src, repo).manifests, e)
  {
    var n, incoming := IndexFile(repo), Incoming(src, repo);
    var x := Existing(cache, src, repo);
    assert At(s, n) == At(cache, n) || At(s, n) == Final(cache, src, n);
    if At(s, n) != At(cache, n) {
      assert WholeIndex(cache, repo, x.manifests) && src[n].doc.manifests == incoming;
      MergeTwice(repo, cache, x.manifests, incoming);
      forall e | e in incoming
        ensures MergedEntry(MergedList(x.manifests, incoming), e) == MergedEntry(x.manifests, e)
      {
        SameEntry(cache, repo, x.manifests, incoming, e);
      }
    }
  }

  lemma SameEntry(m: Files, repo: string, existing: seq<Descriptor>, incoming: seq<Descriptor>, e: Descriptor)
    requires WholeIndex(m, repo, existing) && UniqueKeys(incoming) && e in incoming && Proper(e)
    requires e.Tag() != "" && IsIndexMedia(e.mediaType) ==> e.digest.content.Json?
    ensures MergedEntry(MergedList(existing, incoming), e) == MergedEntry(existing, e)
  {
    MergedListHas(existing, incoming, e);
    var i := KeyIndex(existing, e.Key());
    assert i < |existing| ==> existing[i] in existing;
    MergedEntryTwice(existing, MergedList(existing, incoming), e);
  }

  lemma SameFinal(cache: Files, src: Files, files: seq<File>, s: Files, n: Name)
    requires Whole(cache) && WholeBundle(src, files) && Good(cache, src, s)
    ensures Final(s, src, n) == Final(cache, src, n)
  {
    assert At(s, n) == At(cache, n) || At(s, n) == Final(cache, src, n);
    if n.BlobFile? && n.digest.Sha256? && IndexFile(n.repo) in src {
      SameMerge(cache, src, files, s, n.repo);
      assert MergedDigest(s, src, n.repo, n.digest) <==> MergedDigest(cache, src, n.repo, n.digest);
    } else if n.IndexFile? && n in src {
      SameMerge(cache, src, files, s, n.repo);
    }
    assert n.BlobFile? && n in cache ==> At(s, n) != None;
  }

  /** Running the import again from wherever it stopped ends with the same files as one run that was
      not interrupted; in particular a second import changes nothing. */
  lemma RepeatedImportCompletes(cache: Files, src: Files, files: seq<File>, k: nat)
    requires Whole(cache) && WholeBundle(src, files) && k <= |Import(cache, src, files).log|
    ensures var s := StoppedAfter(cache, src, files, k);
            Import(s, src, files).ok && Import(s, src, files).cache == Import(cache, src, files).cache
  {
    ImportEnds(cache, src, files);
    var s := StoppedAfter(cache, src, files, k);
    assert Good(cache, src, s);
    ImportEnds(s, src, files);
    var a, b := Import(s, src, files).cache, Import(cache, src, files).cache;
    forall n
      ensures At(a, n) == At(b, n)
    {
      SameFinal(cache, src, files, s, n);
      assert IsFinal(s, src, a, n) && IsFinal(cache, src, b, n);
    }
    forall n
      ensures (n in a <==> n in b) && (n in a ==> a[n] == b[n])
    {
      assert At(a, n) == At(b, n);
    }
  }

  // ---- what the inventory promises

  /** A publication carries what it should: an index, a file as the inventory promises it, or a joined
      image index under its own digest. */
  ghost predicate Promised(files: seq<File>, p: Publication) {
    || p.name.IndexFile?
    || (exists f :: f in files && f.name == p.name && f.promised == p.content)
    || (p.name.BlobFile? && p.name.digest == Sha256(p.content))
  }

  ghost predicate AllPromised(files: seq<File>, log: seq<Publication>) {
    forall p :: p in log ==> Promised(files, p)
  }

  lemma {:induction false} AbsorbPromised(w: Work, src: Files, repo: string, olds: seq<Descriptor>, entry: Descriptor,
                                          files: seq<File>)
    requires AllPromised(files, w.log)
    ensures AllPromised(files, AbsorbAll(w, src, repo, olds, entry).0.log)
    decreases |olds|
  {
    if olds != [] && w.ok {
      var (x, e) := Absorb(w, src, repo, olds[0], entry);
      AbsorbPromised(x, src, repo, olds[1..], e, files);
    }
  }

  lemma {:induction false} EntriesPromised(w: Work, src: Files, repo: string, existing: seq<Descriptor>,
                                           incoming: seq<Descriptor>, files: seq<File>)
    requires AllPromised(files, w.log)
    ensures AllPromised(files, MergeEntries(w, src, repo, existing, incoming).0.log)
    decreases |incoming|
  {
    if incoming != [] && w.ok {
      var (x, e) := AbsorbAll(w, src, repo, existing, incoming[0]);
      AbsorbPromised(w, src, repo, existing, incoming[0], files);
      EntriesPromised(x, src, repo, Upsert(existing, e), incoming[1..], files);
    }
  }

  lemma InstallPromised(w: Work, src: Files, f: File, files: seq<File>)
    requires AllPromised(files, w.log) && f in files
    ensures AllPromised(files, Install(w, src, f).log)
  {
    if f.name.IndexFile? && w.ok && f.name in src && src[f.name].Json? {
      var existing := ExistingIndex(w.cache, f.name.repo, src[f.name].doc.mediaType);
      if existing.Some? {
        EntriesPromised(w, src, f.name.repo, existing.value.manifests, src[f.name].doc.manifests, files);
      }
    }
  }

  lemma {:induction false} RoundPromised(w: Work, src: Files, todo: seq<File>, round: Round, files: seq<File>)
    requires AllPromised(files, w.log) && forall f :: f in todo ==> f in files
    ensures AllPromised(files, InstallRound(w, src, todo, round).log)
    decreases |todo|
  {
    if todo != [] {
      assert todo[0] in todo;
      InstallPromised(w, src, todo[0], files);
      var next := if RoundOf(todo[0].name) == round then Install(w, src, todo[0]) else w;
      RoundPromised(next, src, todo[1..], round, files);
    }
  }

  lemma {:induction false} ReplayHolds(cache: Files, log: seq<Publication>, n: Name)
    ensures At(Replay(cache, log), n) == At(cache, n) ||
            exists p :: p in log && p.name == n && At(Replay(cache, log), n) == Some(p.content)
    decreases |log|
  {
    if log != [] {
      ReplayHolds(cache, log[..|log| - 1], n);
      assert log[|log| - 1] in log;
    }
  }

  /** Whatever the bundle and the cache hold, and wherever the import stops: a file other than an index is
      as it was, as the inventory promises it, or a blob that fits its digest. */
  lemma CopiedAsPromised(cache: Files, src: Files, files: seq<File>, k: nat, n: Name)
    requires k <= |Import(cache, src, files).log| && !n.IndexFile?
    ensures var now := At(StoppedAfter(cache, src, files, k), n);
            || now == At(cache, n)
            || (exists f :: f in files && f.name == n && now == Some(f.promised))
            || (n.BlobFile? && n.digest.Sha256? && now == Some(n.digest.content))
  {
    var start := Work(cache, [], true);
    RoundPromised(start, src, files, Immutable, files);
    RoundPromised(InstallRound(start, src, files, Immutable), src, files, Indexes, files);
    RoundPromised(BeforeManifests(cache, src, files), src, files, Manifests, files);
    var log := Import(cache, src, files).log;
    ReplayHolds(cache, log[..k], n);
    if At(Replay(cache, log[..k]), n) != At(cache, n) {
      var p :| p in log[..k] && p.name == n && At(Replay(cache, log[..k]), n) == Some(p.content);
      assert p in log && Promised(files, p);
    }
  }
}
