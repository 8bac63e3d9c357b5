/** Download, export, import elsewhere: what arrives. */
module BundleRoundTrip {
  import opened Results
  import opened Oci
  import opened ImageStore
  import opened ImageWrites
  import opened RepoHistory
  import opened BundleExport
  import opened BundleImport
  import opened ImportedImages
  import opened NeatCaches
  import IC = ImportCrash
  import D = DownloadRun
  import DR = DownloadResult
  import DownloadProgress

  /** The images of a call that belong to one repository. */
  ghost function Here(c: D.Setup, images: seq<Option<ComponentImage>>, name: string): set<ComponentImage>
    requires |images| == |c.jobs|
  {
    DR.ImagesIn(c, images, DR.AllJobs(c), name)
  }

  ghost predicate AllPortable(c: D.Setup, images: seq<Option<ComponentImage>>) {
    DR.JobsOf(c, images) && forall name :: Portable(Here(c, images, name))
  }

  ghost predicate AllNeat(c: D.Setup, images: seq<Option<ComponentImage>>, cache: map<string, Repo>)
    requires |images| == |c.jobs|
  {
    forall name :: Neat(RepoAt(cache, name), Here(c, images, name))
  }

  // ---- the download

  lemma {:induction false} ReplayNeat(c: D.Setup, images: seq<Option<ComponentImage>>, log: seq<D.Visit>, name: string)
    requires AllPortable(c, images) && AllNeat(c, images, c.cache) && DR.Intact(c, log, name)
    ensures Neat(DR.Replay(c, log, name), Here(c, images, name))
    decreases |log|
  {
    if log == [] {
      assert Neat(RepoAt(c.cache, name), Here(c, images, name));
    } else {
      var v, init := log[|log| - 1], log[..|log| - 1];
      ReplayNeat(c, images, init, name);
      var r := DR.Replay(c, init, name);
      if DR.VisitOf(c, v, name) && DR.RunVisit(c, v, name, r).Ok? {
        var image := images[v.job].value;
        assert c.jobs[v.job] == DR.JobFor(image) && image in Here(c, images, name);
        assert v in log && v.left.None?;
        assert DR.RunVisit(c, v, name, r).value == Prefix(image, r, v.ops).value.0;
        StoringNeat(image, r, v.ops, Here(c, images, name));
      }
    }
  }

  /** A download that returns nil leaves a neat cache that holds every image. */
  lemma DownloadedIsNeat(c: D.Setup, images: seq<Option<ComponentImage>>, s: D.State)
    requires AllPortable(c, images) && DR.Prepared(c, images) && AllNeat(c, images, c.cache)
    requires D.Reachable(c, s) && D.Over(s) && s.firstErr.None?
    ensures AllNeat(c, images, s.cache)
    ensures forall name, i :: i in Here(c, images, name) ==> Cached(RepoAt(s.cache, name), i)
  {
    DR.EveryRunIsSerial(c, s);
    DownloadProgress.NilMeansAllCompleted(c, s);
    DR.NilMeansAllCached(c, images, s);
    forall name
      ensures Neat(RepoAt(s.cache, name), Here(c, images, name))
    {
      forall v | v in s.log
        ensures v.left.None?
      {
        assert s.phases[v.job] in s.phases;
      }
      ReplayNeat(c, images, s.log, name);
      assert DR.Quiet(s, name) by {
        if name in s.locks && s.locks[name] < |s.phases| {
          assert s.phases[s.locks[name]] in s.phases;
        }
        D.ReachableIsSound(c, s);
      }
    }
  }

  // ---- the export

  ghost predicate Chosen(c: D.Setup, images: seq<Option<ComponentImage>>, selection: seq<ComponentImage>) {
    DR.JobsOf(c, images) && forall i :: i in selection ==> Some(i) in images
  }

  lemma ChosenIsHere(c: D.Setup, images: seq<Option<ComponentImage>>, selection: seq<ComponentImage>,
                     i: ComponentImage)
    requires Chosen(c, images, selection) && i in selection
    ensures i in Here(c, images, RepoName(i))
  {
    var j :| 0 <= j < |images| && images[j] == Some(i);
    assert c.jobs[j] == DR.JobFor(i) && j in DR.AllJobs(c);
  }

  /** Any selection of the downloaded images can be exported. */
  lemma DownloadedIsExportable(c: D.Setup, images: seq<Option<ComponentImage>>, s: D.State,
                               selection: seq<ComponentImage>)
    requires AllPortable(c, images) && DR.Prepared(c, images) && AllNeat(c, images, c.cache)
    requires D.Reachable(c, s) && D.Over(s) && s.firstErr.None? && Chosen(c, images, selection)
    ensures AllExportable(s.cache, selection)
    ensures ExportedSoFar(s.cache, selection, |selection|).Ok?
  {
    DownloadedIsNeat(c, images, s);
    forall name
      ensures Exportable(RepoAt(s.cache, name), ImagesOf(selection, name))
    {
      ChosenAreHere(c, images, selection, name);
      NeatIsExportable(RepoAt(s.cache, name), Here(c, images, name), ImagesOf(selection, name));
    }
    ExportKeeps(s.cache, selection, |selection|, "");
  }

  lemma ChosenAreHere(c: D.Setup, images: seq<Option<ComponentImage>>, selection: seq<ComponentImage>, name: string)
    requires Chosen(c, images, selection)
    ensures ImagesOf(selection, name) <= Here(c, images, name)
  {
    forall i | i in ImagesOf(selection, name)
      ensures i in Here(c, images, name)
    {
      ChosenIsHere(c, images, selection, i);
    }
  }

  lemma {:induction false} ExportNeat(src: map<string, Repo>, selection: seq<ComponentImage>, k: nat, name: string,
                                      images: set<ComponentImage>)
    requires AllExportable(src, selection) && k <= |selection|
    requires Portable(images) && Neat(RepoAt(src, name), images) && ImagesOf(selection, name) <= images
    ensures ExportedSoFar(src, selection, k).Ok?
    ensures Neat(RepoAt(ExportedSoFar(src, selection, k).value, name), images)
    decreases k
  {
    if k == 0 {
      NothingExported(src, selection, name, images);
    } else {
      ExportNeat(src, selection, k - 1, name, images);
      ExportGoesOn(src, selection, k);
      NextNeat(src, ExportedSoFar(src, selection, k - 1).value, selection, k - 1, name, images);
    }
  }

  lemma NextNeat(src: map<string, Repo>, dst: map<string, Repo>, selection: seq<ComponentImage>, k: nat, name: string,
                 images: set<ComponentImage>)
    requires AllExportable(src, selection) && k < |selection|
    requires Portable(images) && Neat(RepoAt(src, name), images) && ImagesOf(selection, name) <= images
    requires AddImage(src, dst, selection[k]).Ok? && Neat(RepoAt(dst, name), images)
    ensures Neat(RepoAt(AddImage(src, dst, selection[k]).value, name), images)
  {
    if name == RepoName(selection[k]) {
      SelectedComplete(src, selection, k);
    }
    AddNeat(src, dst, selection[k], name, images);
  }

  lemma NothingExported(src: map<string, Repo>, selection: seq<ComponentImage>, name: string,
                        images: set<ComponentImage>)
    ensures ExportedSoFar(src, selection, 0).Ok?
    ensures Neat(RepoAt(ExportedSoFar(src, selection, 0).value, name), images)
  {
    EmptyIsNeat(images);
  }

  lemma ExportGoesOn(src: map<string, Repo>, selection: seq<ComponentImage>, k: nat)
    requires AllExportable(src, selection) && 0 < k <= |selection| && ExportedSoFar(src, selection, k - 1).Ok?
    ensures ExportedSoFar(src, selection, k).Ok?
    ensures AddImage(src, ExportedSoFar(src, selection, k - 1).value, selection[k - 1]) ==
            ExportedSoFar(src, selection, k)
  {
    ExportKeeps(src, selection, k, "");
    SoFarStep(src, selection, k);
  }

  lemma SelectedComplete(src: map<string, Repo>, selection: seq<ComponentImage>, k: nat)
    requires AllExportable(src, selection) && k < |selection|
    ensures var x := selection[k];
            x in ImagesOf(selection, RepoName(x)) && Complete(RepoAt(src, RepoName(x)), x.digest) == Ok(true)
  {
    var x := selection[k];
    assert Exportable(RepoAt(src, RepoName(x)), ImagesOf(selection, RepoName(x)));
    assert x in ImagesOf(selection, RepoName(x));
    CachedIsComplete(RepoAt(src, RepoName(x)), x);
  }

  lemma AddNeat(src: map<string, Repo>, dst: map<string, Repo>, x: ComponentImage, name: string,
                images: set<ComponentImage>)
    requires AddImage(src, dst, x).Ok? && Neat(RepoAt(dst, name), images)
    requires name == RepoName(x) ==>
               && Portable(images) && x in images && Neat(RepoAt(src, name), images)
               && Complete(RepoAt(src, name), x.digest) == Ok(true)
    ensures Neat(RepoAt(AddImage(src, dst, x).value, name), images)
  {
    if name == RepoName(x) {
      CopyNeat(RepoAt(src, name), RepoAt(dst, name), x, images);
    }
  }

  // ---- the files of a cache

  /** The files hold the repositories of the cache, and perhaps other things. */
  ghost predicate Holds(m: Files, cache: map<string, Repo>) {
    forall name :: RepoOf(m, name) == RepoAt(cache, name)
  }

  lemma NeatIndexFile(m: Files, repo: string, images: set<ComponentImage>)
    requires Neat(RepoOf(m, repo), images) && Portable(images) && IndexFile(repo) in m
    ensures m[IndexFile(repo)].Json? && WholeIndex(m, repo, m[IndexFile(repo)].doc.manifests)
    ensures forall e :: e in m[IndexFile(repo)].doc.manifests ==> Proper(e)
  {
    var r := RepoOf(m, repo);
    assert r.indexFile == Some(m[IndexFile(repo)]) && m[IndexFile(repo)].Json?;
    assert IndexOf(r) == m[IndexFile(repo)].doc.manifests;
    forall e | e in IndexOf(r)
      ensures BlobFile(repo, e.digest) in m && Proper(e) && (e.Tag() != "" ==> e.digest.content.Json?)
    {
      BlobsOf(m, repo, e.digest);
      RightfulIsProper(images, e);
    }
  }

  lemma RightfulIsProper(images: set<ComponentImage>, e: Descriptor)
    requires Portable(images) && Rightful(images, e)
    ensures Proper(e) && (e.Tag() != "" ==> e.digest.content.Json?)
  {
    if e.Tag() != "" {
      var j :| j in images && j.Tag() == e.Tag() && Names(images, j, e.digest);
      assert j.SeparatePin().Some? ==> IsImageIndex(e.digest) && FairPin(j, e.digest.content.doc.manifests);
    }
  }

  /** The files of a neat cache are whole, and with a true inventory a whole bundle. */
  lemma NeatIsWhole(c: D.Setup, images: seq<Option<ComponentImage>>, cache: map<string, Repo>, m: Files)
    requires AllPortable(c, images) && AllNeat(c, images, cache) && Holds(m, cache)
    ensures Whole(m)
    ensures forall files :: Inventoried(m, files) ==> WholeBundle(m, files)
  {
    forall n | n in m && n.BlobFile?
      ensures n.digest.Sha256? && m[n] == n.digest.content
    {
      assert Neat(RepoAt(cache, n.repo), Here(c, images, n.repo)) && RepoOf(m, n.repo) == RepoAt(cache, n.repo);
      BlobsOf(m, n.repo, n.digest);
      assert BlobFile(n.repo, n.digest) == n;
      assert Has(RepoOf(m, n.repo), n.digest);
    }
    forall n | n in m && n.IndexFile?
      ensures m[n].Json? && WholeIndex(m, n.repo, m[n].doc.manifests)
      ensures forall e :: e in m[n].doc.manifests ==> Proper(e)
    {
      assert Neat(RepoAt(cache, n.repo), Here(c, images, n.repo)) && RepoOf(m, n.repo) == RepoAt(cache, n.repo);
      assert IndexFile(n.repo) == n;
      NeatIndexFile(m, n.repo, Here(c, images, n.repo));
    }
  }

  // ---- the import

  /** Images that were downloaded without an error, exported and imported into any whole cache that does
      not know the image's tag: the import succeeds, the cache stays whole, and the image is cached there. */
  lemma RoundTrip(c: D.Setup, images: seq<Option<ComponentImage>>, s: D.State, selection: seq<ComponentImage>,
                  bundle: Files, files: seq<File>, there: Files, image: ComponentImage)
    requires AllPortable(c, images) && DR.Prepared(c, images) && AllNeat(c, images, c.cache)
    requires D.Reachable(c, s) && D.Over(s) && s.firstErr.None? && Chosen(c, images, selection)
    requires ExportedSoFar(s.cache, selection, |selection|).Ok? ==>
               Holds(bundle, ExportedSoFar(s.cache, selection, |selection|).value)
    requires Inventoried(bundle, files) && Whole(there) && image in selection
    requires image.Tag() != "" ==> EntryIn(there, RepoName(image), image.Tag()).None?
    ensures var after := Import(there, bundle, files);
            after.ok && Whole(after.cache) && Cached(RepoOf(after.cache, RepoName(image)), image)
  {
    DownloadedIsNeat(c, images, s);
    DownloadedIsExportable(c, images, s, selection);
    var dst := ExportedSoFar(s.cache, selection, |selection|).value;
    forall name
      ensures Neat(RepoAt(dst, name), Here(c, images, name))
    {
      ChosenAreHere(c, images, selection, name);
      ExportNeat(s.cache, selection, |selection|, name, Here(c, images, name));
    }
    NeatIsWhole(c, images, dst, bundle);
    ExportedIsSettled(s.cache, selection, image);
    IC.ImportEnds(there, bundle, files);
    IC.GoodNow(there, bundle, Import(there, bundle, files));
    assert RepoOf(bundle, RepoName(image)) == RepoAt(dst, RepoName(image));
    NewTagIsCached(there, bundle, files, RepoName(image), image);
  }

  lemma ExportedIsSettled(src: map<string, Repo>, selection: seq<ComponentImage>, image: ComponentImage)
    requires AllExportable(src, selection) && image in selection
    ensures ExportedSoFar(src, selection, |selection|).Ok?
    ensures var r := RepoAt(ExportedSoFar(src, selection, |selection|).value, RepoName(image));
            Recorded(r, image) && Cached(r, image)
  {
    var name := RepoName(image);
    ExportKeeps(src, selection, |selection|, name);
    assert selection[..|selection|] == selection && image in ImagesOf(selection, name);
    SettledIsCached(RepoAt(ExportedSoFar(src, selection, |selection|).value, name), image);
  }

  /** From an empty cache nothing is asked of any cache but the one that receives the bundle. */
  lemma FreshRoundTrip(c: D.Setup, images: seq<Option<ComponentImage>>, s: D.State, selection: seq<ComponentImage>,
                       bundle: Files, files: seq<File>, there: Files, image: ComponentImage)
    requires AllPortable(c, images) && c.cache == map[]
    requires D.Reachable(c, s) && D.Over(s) && s.firstErr.None? && Chosen(c, images, selection)
    requires ExportedSoFar(s.cache, selection, |selection|).Ok? ==>
               Holds(bundle, ExportedSoFar(s.cache, selection, |selection|).value)
    requires Inventoried(bundle, files) && Whole(there) && image in selection
    requires image.Tag() != "" ==> EntryIn(there, RepoName(image), image.Tag()).None?
    ensures var after := Import(there, bundle, files);
            after.ok && Whole(after.cache) && Cached(RepoOf(after.cache, RepoName(image)), image)
  {
    forall name
      ensures Neat(RepoAt(c.cache, name), Here(c, images, name))
      ensures Compatible(DR.ImagesIn(c, images, DR.AllJobs(c), name))
    {
      EmptyIsNeat(Here(c, images, name));
      assert Portable(Here(c, images, name));
    }
    forall k | 0 <= k < |images| && images[k].Some?
      ensures images[k].value.Tag() != "" || images[k].value.SeparatePin().None?
    {
      var i := images[k].value;
      assert c.jobs[k] == DR.JobFor(i) && k in DR.AllJobs(c) && i in Here(c, images, c.jobs[k].repo);
    }
    DR.FreshIsPrepared(c, images);
    RoundTrip(c, images, s, selection, bundle, files, there, image);
  }
}
