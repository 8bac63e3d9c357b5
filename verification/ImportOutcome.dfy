/** When an import succeeds, for any cache and any bundle, whole or not. */
module ImportOutcome {
  import opened Results
  import opened Oci
  import opened BundleImport
  import CD = CacheDirectory
  import IC = ImportCrash

  ghost predicate Document(m: Files, n: Name) {
    n in m && m[n].Json?
  }

  ghost predicate Matches(src: Files, f: File) {
    f.name in src && src[f.name] == f.promised
  }

  /** A round of immutable files or of manifests succeeds if and only if the bundle holds all of them as the
      inventory promises them. */
  lemma {:induction false} FilesSucceed(w: Work, src: Files, files: seq<File>, round: Round)
    requires w.ok && round != Indexes
    ensures InstallRound(w, src, files, round).ok <==>
            forall f :: f in files && RoundOf(f.name) == round ==> Matches(src, f)
    decreases |files|
  {
    if files != [] {
      var next := if RoundOf(files[0].name) == round then Install(w, src, files[0]) else w;
      assert files == [files[0]] + files[1..];
      if next.ok {
        FilesSucceed(next, src, files[1..], round);
      } else {
        CD.StoppedRound(next, src, files[1..], round);
        assert files[0] in files;
      }
    }
  }

  // ---- one index

  /** What can be read as a document stays so, and what appeared can be. */
  ghost predicate MoreDocuments(m: Files, s: Files) {
    forall n {:trigger n in s} :: if n in m then n in s && (m[n].Json? ==> s[n].Json?) else n in s ==> s[n].Json?
  }

  /** The blobs that joining an entry with what its tag names reads. */
  ghost predicate Joinable(m: Files, src: Files, repo: string, existing: seq<Descriptor>, entry: Descriptor) {
    var p := Resolve(existing, entry.Key());
    p.Some? && Merges(p.value, entry) ==>
      Document(m, BlobFile(repo, p.value.digest)) && Document(src, BlobFile(repo, entry.digest))
  }

  lemma RestHasOtherKeys(olds: seq<Descriptor>)
    requires olds != [] && UniqueKeys(olds)
    ensures UniqueKeys(olds[1..]) && forall p :: p in olds[1..] ==> p.Key() != olds[0].Key()
  {
    forall p | p in olds[1..]
      ensures p.Key() != olds[0].Key()
    {
      var i :| 0 <= i < |olds[1..]| && olds[1..][i] == p;
      assert olds[0].Key() != olds[i + 1].Key();
    }
  }

  lemma {:induction false} JoinSucceeds(w: Work, src: Files, repo: string, olds: seq<Descriptor>, entry: Descriptor)
    requires w.ok && UniqueKeys(olds)
    ensures var (x, e) := AbsorbAll(w, src, repo, olds, entry);
            && (x.ok <==> Joinable(w.cache, src, repo, olds, entry)) && MoreDocuments(w.cache, x.cache)
            && e.Key() == entry.Key()
    decreases |olds|
  {
    if olds != [] {
      var p := olds[0];
      RestHasOtherKeys(olds);
      if Merges(p, entry) {
        var (x, e) := Absorb(w, src, repo, p, entry);
        if x.ok {
          IC.AbsorbNone(x, src, repo, olds[1..], e);
        }
      } else {
        JoinSucceeds(w, src, repo, olds[1..], entry);
        ResolveRest(olds, entry);
      }
    }
  }

  lemma ResolveRest(olds: seq<Descriptor>, entry: Descriptor)
    requires olds != [] && UniqueKeys(olds) && !Merges(olds[0], entry)
    ensures var p, q := Resolve(olds, entry.Key()), Resolve(olds[1..], entry.Key());
            p.Some? && Merges(p.value, entry) <==> q.Some? && Merges(q.value, entry)
  {
    RestHasOtherKeys(olds);
    if olds[0].Key() == entry.Key() {
      KeyIndexIs(olds[1..], entry.Key(), |olds[1..]|);
    }
  }

  /** A merge of entries with distinct keys succeeds when the blobs that it joins can be read on both sides; and
      when it succeeds they could be, the earlier ones still can. */
  lemma {:induction false} EntriesSucceed(w: Work, src: Files, repo: string, existing: seq<Descriptor>,
                                          incoming: seq<Descriptor>)
    requires w.ok && UniqueKeys(existing) && UniqueKeys(incoming)
    ensures var x := MergeEntries(w, src, repo, existing, incoming).0;
            && MoreDocuments(w.cache, x.cache)
            && (x.ok ==> forall e :: e in incoming ==> Joinable(x.cache, src, repo, existing, e))
            && ((forall e :: e in incoming ==> Joinable(w.cache, src, repo, existing, e)) ==> x.ok)
    decreases |incoming|
  {
    if incoming != [] {
      JoinSucceeds(w, src, repo, existing, incoming[0]);
      var (y, e) := AbsorbAll(w, src, repo, existing, incoming[0]);
      assert incoming[0] in incoming;
      if y.ok {
        RestHasOtherKeys(incoming);
        UpsertIsMapUpdate(existing, e, e.Key());
        EntriesSucceed(y, src, repo, Upsert(existing, e), incoming[1..]);
        var x := MergeEntries(y, src, repo, Upsert(existing, e), incoming[1..]).0;
        JoinableStays(y.cache, x.cache, src, repo, existing, incoming[0]);
        forall i | i in incoming[1..]
          ensures Resolve(Upsert(existing, e), i.Key()) == Resolve(existing, i.Key())
          ensures Joinable(w.cache, src, repo, existing, i) ==> Joinable(y.cache, src, repo, existing, i)
        {
          UpsertIsMapUpdate(existing, e, i.Key());
          JoinableStays(w.cache, y.cache, src, repo, existing, i);
        }
        JoinableStays(w.cache, y.cache, src, repo, existing, incoming[0]);
        assert incoming == [incoming[0]] + incoming[1..];
      }
    }
  }

  lemma JoinableStays(m: Files, s: Files, src: Files, repo: string, existing: seq<Descriptor>, entry: Descriptor)
    requires MoreDocuments(m, s)
    ensures Joinable(m, src, repo, existing, entry) ==> Joinable(s, src, repo, existing, entry)
  {
  }

  /** The entries that the cache has for the repository. */
  ghost function Entries(m: Files, repo: string): seq<Descriptor> {
    if Document(m, IndexFile(repo)) then m[IndexFile(repo)].doc.manifests else []
  }

  /** Merging an index: the bundle's index must be readable, the cache's as well if there is one, and so must the
      blobs that are joined. The index that is then published keeps the head of the cache's, and for a new
      repository is of schema version two with the bundle's media type. */
  lemma MergeSucceeds(w: Work, src: Files, repo: string)
    requires w.ok && UniqueKeys(Entries(w.cache, repo)) && UniqueKeys(Entries(src, repo))
    ensures var n, existing := IndexFile(repo), Entries(w.cache, repo);
            var x := MergeIndex(w, src, repo);
            && (x.ok ==>
                  && Document(src, n) && (n in w.cache ==> Document(w.cache, n)) && Document(x.cache, n)
                  && (forall e :: e in Entries(src, repo) ==> Joinable(x.cache, src, repo, existing, e))
                  && x.cache[n].doc.schemaVersion == (if n in w.cache then w.cache[n].doc.schemaVersion else 2)
                  && x.cache[n].doc.mediaType == (if n in w.cache then w.cache[n].doc else src[n].doc).mediaType)
            && ((&& Document(src, n) && (n in w.cache ==> Document(w.cache, n))
                 && forall e :: e in Entries(src, repo) ==> Joinable(w.cache, src, repo, existing, e)) ==>
                 x.ok)
  {
    if Document(src, IndexFile(repo)) && (IndexFile(repo) in w.cache ==> Document(w.cache, IndexFile(repo))) {
      EntriesSucceed(w, src, repo, Entries(w.cache, repo), Entries(src, repo));
      var x := MergeEntries(w, src, repo, Entries(w.cache, repo), Entries(src, repo)).0;
      assert MoreDocuments(x.cache, MergeIndex(w, src, repo).cache);
    }
  }

  // ---- the whole import

  lemma {:induction false} IndexesNeed(w: Work, src: Files, files: seq<File>)
    requires InstallRound(w, src, files, Indexes).ok
    ensures forall f :: f in files && f.name.IndexFile? ==> Document(src, f.name)
    decreases |files|
  {
    if files != [] {
      var next := if RoundOf(files[0].name) == Indexes then Install(w, src, files[0]) else w;
      if !next.ok {
        CD.StoppedRound(next, src, files[1..], Indexes);
      }
      IndexesNeed(next, src, files[1..]);
      assert files == [files[0]] + files[1..];
    }
  }

  /** A successful import found every file of the inventory in the bundle: indexes that can be read, and all
      else as promised. One without indexes succeeds exactly then. */
  lemma ImportNeeds(cache: Files, src: Files, files: seq<File>)
    ensures Import(cache, src, files).ok ==>
              forall f :: f in files ==> if f.name.IndexFile? then Document(src, f.name) else Matches(src, f)
    ensures (forall f :: f in files ==> !f.name.IndexFile?) ==>
              (Import(cache, src, files).ok <==> forall f :: f in files ==> Matches(src, f))
  {
    var start := Work(cache, [], true);
    var blobs := InstallRound(start, src, files, Immutable);
    var indexes := InstallRound(blobs, src, files, Indexes);
    FilesSucceed(start, src, files, Immutable);
    if !blobs.ok {
      CD.StoppedRound(blobs, src, files, Indexes);
    }
    if !indexes.ok {
      CD.StoppedRound(indexes, src, files, Manifests);
    } else {
      IndexesNeed(blobs, src, files);
      FilesSucceed(indexes, src, files, Manifests);
    }
    if forall f :: f in files ==> !f.name.IndexFile? {
      NoIndexes(blobs, src, files);
    }
  }

  lemma {:induction false} NoIndexes(w: Work, src: Files, files: seq<File>)
    requires forall f :: f in files ==> !f.name.IndexFile?
    ensures InstallRound(w, src, files, Indexes) == w
    decreases |files|
  {
    if files != [] {
      assert files[0] in files;
      NoIndexes(w, src, files[1..]);
    }
  }
}
