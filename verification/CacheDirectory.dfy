/** The import as loops over a cache directory, publishing one file at a time. */
module CacheDirectory {
  import opened Results
  import opened Oci
  import opened BundleImport

  function Select(files: seq<File>, round: Round): seq<File> {
    if files == [] then []
    else if RoundOf(files[0].name) == round then [files[0]] + Select(files[1..], round)
    else Select(files[1..], round)
  }

  /** Going over the collected files of a round is going over the inventory. */
  lemma {:induction false} SelectInstalls(w: Work, src: Files, files: seq<File>, round: Round)
    ensures InstallRound(w, src, Select(files, round), round) == InstallRound(w, src, files, round)
    decreases |files|
  {
    if files != [] {
      if RoundOf(files[0].name) == round {
        assert Select(files, round)[1..] == Select(files[1..], round);
        SelectInstalls(Install(w, src, files[0]), src, files[1..], round);
      } else {
        SelectInstalls(w, src, files[1..], round);
      }
    }
  }

  lemma {:induction false} StoppedRound(w: Work, src: Files, files: seq<File>, round: Round)
    requires !w.ok
    ensures InstallRound(w, src, files, round) == w
    decreases |files|
  {
    if files != [] {
      StoppedRound(w, src, files[1..], round);
    }
  }

  lemma {:induction false} SelectMembers(files: seq<File>, round: Round)
    ensures forall f :: f in Select(files, round) ==> RoundOf(f.name) == round
  {
    if files != [] {
      SelectMembers(files[1..], round);
    }
  }

  lemma {:induction false} SelectSnoc(files: seq<File>, f: File, round: Round)
    ensures Select(files + [f], round) == Select(files, round) + if RoundOf(f.name) == round then [f] else []
  {
    if files == [] {
      assert [f][1..] == [];
      assert Select([f], round) == if RoundOf(f.name) == round then [f] else [];
    } else {
      assert (files + [f])[0] == files[0] && (files + [f])[1..] == files[1..] + [f];
      SelectSnoc(files[1..], f, round);
    }
  }

  // ---- the log only grows

  lemma {:induction false} AbsorbGrows(w: Work, src: Files, repo: string, olds: seq<Descriptor>, entry: Descriptor)
    ensures w.log <= AbsorbAll(w, src, repo, olds, entry).0.log
    decreases |olds|
  {
    if olds != [] && w.ok {
      var (x, e) := Absorb(w, src, repo, olds[0], entry);
      AbsorbGrows(x, src, repo, olds[1..], e);
    }
  }

  lemma {:induction false} MergeGrows(w: Work, src: Files, repo: string, existing: seq<Descriptor>,
                                      incoming: seq<Descriptor>)
    ensures w.log <= MergeEntries(w, src, repo, existing, incoming).0.log
    decreases |incoming|
  {
    if incoming != [] && w.ok {
      var (x, e) := AbsorbAll(w, src, repo, existing, incoming[0]);
      AbsorbGrows(w, src, repo, existing, incoming[0]);
      MergeGrows(x, src, repo, Upsert(existing, e), incoming[1..]);
    }
  }

  lemma InstallGrows(w: Work, src: Files, f: File)
    ensures w.log <= Install(w, src, f).log
  {
    if f.name.IndexFile? && w.ok && f.name in src && src[f.name].Json? {
      var existing := ExistingIndex(w.cache, f.name.repo, src[f.name].doc.mediaType);
      if existing.Some? {
        MergeGrows(w, src, f.name.repo, existing.value.manifests, src[f.name].doc.manifests);
      }
    }
  }

  lemma {:induction false} RoundGrows(w: Work, src: Files, files: seq<File>, round: Round)
    ensures w.log <= InstallRound(w, src, files, round).log
    decreases |files|
  {
    if files != [] {
      InstallGrows(w, src, files[0]);
      RoundGrows(if RoundOf(files[0].name) == round then Install(w, src, files[0]) else w, src, files[1..], round);
    }
  }

  lemma ReplaySnoc(cache: Files, log: seq<Publication>, p: Publication)
    ensures BundleImport.Replay(cache, log + [p]) == BundleImport.Replay(cache, log)[p.name := p.content]
  {
    assert (log + [p])[..|log|] == log;
  }

  // ---- the code

  class CacheDir {
    var files: Files
    /** Whether the n-th publication, cancellation test or verification goes wrong. */
    const disturbance: nat -> bool
    var count: nat
    ghost const initial: Files
    ghost var log: seq<Publication>

    constructor (cache: Files, disturbance: nat -> bool)
      ensures Valid() && files == initial == cache && log == [] && this.disturbance == disturbance
    {
      files, initial, log, count, this.disturbance := cache, cache, [], 0, disturbance;
    }

    ghost predicate Valid()
      reads this
    {
      files == Replay(initial, log)
    }

    ghost function Running(ok: bool): Work
      reads this
    {
      Work(files, log, ok)
    }

    /** On success everything is as the undisturbed import has it; otherwise the publications are a
        beginning of its publications, and without a disturbance all of them. */
    ghost predicate Leaves(ok: bool, target: Work)
      reads this
    {
      && Valid()
      && (if ok then target == Running(true) else log <= target.log)
      && (!ok && Calm(disturbance) ==> target == Running(false))
    }

    method Disturbed() returns (d: bool)
      modifies this`count
      ensures d ==> !Calm(disturbance)
    {
      d := disturbance(count);
      count := count + 1;
    }

    method Publish(n: Name, b: Blob) returns (ok: bool)
      requires Valid()
      modifies this
      ensures Valid() && (ok ==> Running(true) == BundleImport.Publish(old(Running(true)), n, b))
      ensures !ok ==> Running(false) == old(Running(false)) && !Calm(disturbance)
    {
      var failed := Disturbed();
      if failed {
        return false;
      }
      ReplaySnoc(initial, log, Publication(n, b));
      files := files[n := b];
      log := log + [Publication(n, b)];
      return true;
    }

    /** Publishes only when the copied content is what the inventory promises. */
    method CopyFile(src: Files, f: File) returns (ok: bool)
      requires Valid()
      modifies this
      ensures Leaves(ok, BundleImport.CopyFile(old(Running(true)), src, f))
    {
      if f.name !in src || src[f.name] != f.promised {
        return false;
      }
      ok := Publish(f.name, src[f.name]);
    }

    method MergeIndex(src: Files, repo: string) returns (ok: bool)
      requires Valid()
      modifies this
      ensures Leaves(ok, BundleImport.MergeIndex(old(Running(true)), src, repo))
    {
      if IndexFile(repo) !in src || src[IndexFile(repo)].Opaque? {
        return false;
      }
      var incoming := src[IndexFile(repo)].doc;
      var existing := Index(2, incoming.mediaType, []);
      if IndexFile(repo) in files {
        if files[IndexFile(repo)].Opaque? {
          return false;
        }
        existing := Decode(files[IndexFile(repo)].doc);
      }
      var ms: seq<Descriptor>;
      ok, ms := MergeAll(src, repo, existing.manifests, incoming.manifests);
      if ok {
        ok := Publish(IndexFile(repo), Encode(existing.(manifests := ms)));
      }
    }

    /** The outer loop: each incoming entry is joined with what its tag names, then recorded. */
    method MergeAll(src: Files, repo: string, first: seq<Descriptor>, incoming: seq<Descriptor>)
      returns (ok: bool, existing: seq<Descriptor>)
      requires Valid()
      modifies this
      ensures var (x, ms) := MergeEntries(old(Running(true)), src, repo, first, incoming);
              Leaves(ok, x) && (ok ==> existing == ms)
    {
      ghost var start := Running(true);
      existing := first;
      for j := 0 to |incoming|
        invariant Valid()
        invariant MergeEntries(start, src, repo, first, incoming) ==
                  MergeEntries(Running(true), src, repo, existing, incoming[j..])
      {
        assert incoming[j..][0] == incoming[j] && incoming[j..][1..] == incoming[j + 1..];
        ghost var (x, e) := AbsorbAll(Running(true), src, repo, existing, incoming[j]);
        MergeGrows(x, src, repo, Upsert(existing, e), incoming[j + 1..]);
        var entry: Descriptor;
        ok, entry := JoinEntry(src, repo, existing, incoming[j]);
        if !ok {
          return;
        }
        var index := new ImageIndex(existing);
        index.UpsertIndexDescriptor(entry);
        existing := index.manifests;
      }
      ok := true;
    }

    /** The inner loop: an entry meets the existing entries one by one and may change on the way. */
    method JoinEntry(src: Files, repo: string, priors: seq<Descriptor>, incoming: Descriptor)
      returns (ok: bool, entry: Descriptor)
      requires Valid()
      modifies this
      ensures var (x, e) := AbsorbAll(old(Running(true)), src, repo, priors, incoming);
              Leaves(ok, x) && (ok ==> entry == e)
    {
      ghost var start := Running(true);
      entry := incoming;
      for i := 0 to |priors|
        invariant Valid()
        invariant AbsorbAll(start, src, repo, priors, incoming) ==
                  AbsorbAll(Running(true), src, repo, priors[i..], entry)
      {
        var prior := priors[i];
        assert priors[i..][0] == prior && priors[i..][1..] == priors[i + 1..];
        if entry.Tag() == "" || prior.Tag() != entry.Tag() || prior.digest == entry.digest {
          continue;
        }
        if IsIndexMedia(prior.mediaType) && IsIndexMedia(entry.mediaType) {
          ghost var (x, e) := Absorb(Running(true), src, repo, prior, entry);
          AbsorbGrows(x, src, repo, priors[i + 1..], e);
          var a, b := BlobFile(repo, prior.digest), BlobFile(repo, entry.digest);
          if a !in files || b !in src || files[a].Opaque? || src[b].Opaque? {
            return false, entry;
          }
          var joined := new ImageIndex(Decode(files[a].doc).manifests);
          UpsertChildren(joined, Decode(src[b].doc).manifests);
          var merged := Encode(Decode(files[a].doc).(manifests := joined.manifests));
          entry := entry.(digest := Sha256(merged), size := Length(merged));
          ok := Publish(BlobFile(repo, entry.digest), merged);
          if !ok {
            return;
          }
        }
      }
      ok := true;
    }

    static method UpsertChildren(joined: ImageIndex, children: seq<Descriptor>)
      modifies joined
      ensures joined.manifests == UpsertManifests(old(joined.manifests), children)
    {
      for k := 0 to |children|
        invariant UpsertManifests(old(joined.manifests), children) == UpsertManifests(joined.manifests, children[k..])
      {
        assert children[k..][0] == children[k] && children[k..][1..] == children[k + 1..];
        joined.UpsertManifestDescriptor(children[k]);
      }
    }

    /** The first loop installs immutable files and collects the others for later. */
    method InstallImmutable(src: Files, inventory: seq<File>)
      returns (ok: bool, indexes: seq<File>, manifests: seq<File>)
      requires Valid()
      modifies this
      ensures Leaves(ok, InstallRound(old(Running(true)), src, inventory, Immutable))
      ensures ok ==> indexes == Select(inventory, Indexes) && manifests == Select(inventory, Manifests)
    {
      ghost var start := Running(true);
      indexes, manifests := [], [];
      for i := 0 to |inventory|
        invariant Valid()
        invariant indexes == Select(inventory[..i], Indexes) && manifests == Select(inventory[..i], Manifests)
        invariant InstallRound(start, src, inventory, Immutable) ==
                  InstallRound(Running(true), src, inventory[i..], Immutable)
      {
        var f := inventory[i];
        assert inventory[i..][0] == f && inventory[i..][1..] == inventory[i + 1..];
        assert inventory[..i + 1] == inventory[..i] + [f];
        SelectSnoc(inventory[..i], f, Indexes);
        SelectSnoc(inventory[..i], f, Manifests);
        if f.name.Manifest? {
          manifests := manifests + [f];
        } else if f.name.IndexFile? {
          indexes := indexes + [f];
        } else {
          ok := InstallOne(src, f, inventory[i + 1..], Immutable);
          if !ok {
            return;
          }
        }
      }
      assert inventory[..|inventory|] == inventory;
      ok := true;
    }

    /** One file, after a test for cancellation; rest is what its round would install next. */
    method InstallOne(src: Files, f: File, ghost rest: seq<File>, ghost round: Round) returns (ok: bool)
      requires Valid()
      modifies this
      ensures Leaves(ok, Install(old(Running(true)), src, f))
      ensures !ok ==> Leaves(false, InstallRound(Install(old(Running(true)), src, f), src, rest, round))
    {
      ghost var target := Install(Running(true), src, f);
      InstallGrows(Running(true), src, f);
      RoundGrows(target, src, rest, round);
      var cancelled := Disturbed();
      if cancelled {
        return false;
      }
      if f.name.IndexFile? {
        ok := MergeIndex(src, f.name.repo);
      } else {
        ok := CopyFile(src, f);
      }
      if !ok && Calm(disturbance) {
        StoppedRound(target, src, rest, round);
      }
    }

    /** A later loop over collected files. */
    method InstallCollected(src: Files, collected: seq<File>, ghost round: Round) returns (ok: bool)
      requires Valid() && forall f :: f in collected ==> RoundOf(f.name) == round
      modifies this
      ensures Leaves(ok, InstallRound(old(Running(true)), src, collected, round))
    {
      ghost var start := Running(true);
      for i := 0 to |collected|
        invariant Valid()
        invariant InstallRound(start, src, collected, round) == InstallRound(Running(true), src, collected[i..], round)
      {
        var f := collected[i];
        assert collected[i..][0] == f && collected[i..][1..] == collected[i + 1..] && f in collected;
        ok := InstallOne(src, f, collected[i + 1..], round);
        if !ok {
          return;
        }
      }
      ok := true;
    }

    /** The bundle is verified first and the cache last; in between immutable files are installed first,
        the indexes next, the manifests last. */
    method Import(src: Files, inventory: seq<File>) returns (ok: bool)
      requires Valid() && log == []
      modifies this
      ensures Valid() && log <= BundleImport.Import(initial, src, inventory).log
      ensures ok ==> Running(true) == BundleImport.Import(initial, src, inventory)
      ensures !ok && Calm(disturbance) ==> Running(false) == BundleImport.Import(initial, src, inventory)
    {
      ghost var start := Running(true);
      ghost var blobs := InstallRound(start, src, inventory, Immutable);
      ghost var merged := InstallRound(blobs, src, inventory, Indexes);
      RoundGrows(blobs, src, inventory, Indexes);
      RoundGrows(merged, src, inventory, Manifests);
      SelectInstalls(blobs, src, inventory, Indexes);
      SelectInstalls(merged, src, inventory, Manifests);
      var incomplete := Disturbed();
      if incomplete {
        return false;
      }
      var indexes, manifests: seq<File>;
      ok, indexes, manifests := InstallImmutable(src, inventory);
      if !ok {
        if Calm(disturbance) {
          StoppedRound(blobs, src, inventory, Indexes);
          StoppedRound(blobs, src, inventory, Manifests);
        }
        return;
      }
      SelectMembers(inventory, Indexes);
      SelectMembers(inventory, Manifests);
      ok := InstallCollected(src, indexes, Indexes);
      if !ok {
        if Calm(disturbance) {
          StoppedRound(merged, src, inventory, Manifests);
        }
        return;
      }
      ok := InstallCollected(src, manifests, Manifests);
      if ok {
        incomplete := Disturbed();
        ok := !incomplete;
      }
    }
  }
}
