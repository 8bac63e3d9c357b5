/** Which images of a bundle the cache check accepts after the bundle was imported. */
module ImportedImages {
  import opened Results
  import opened Oci
  import opened ImageStore
  import opened TagListings
  import opened ImageWrites
  import opened BundleImport
  import opened ImportCrash

  // ---- joining two image indexes

  ghost function Child(image: ComponentImage, bs: seq<Descriptor>): Descriptor
    requires Listed(image, bs)
  {
    bs[HitIndex(image, bs)]
  }

  /** Entries of the image's digest carry its own OS and architecture, or no platform. */
  ghost predicate Placed(image: ComponentImage, ms: seq<Descriptor>) {
    forall x :: x in ms && x.digest == image.digest && x.platform.Some? ==> MatchesPlatform(image, x)
  }

  /** Any other digest that both indexes list has the image's OS and architecture in both or in neither. */
  ghost predicate Agree(image: ComponentImage, ms: seq<Descriptor>, bs: seq<Descriptor>) {
    forall x, b | x in ms && b in bs :: x.digest == b.digest && b.digest != image.digest ==>
      (MatchesPlatform(image, x) <==> MatchesPlatform(image, b))
  }

  /** Nothing of the image's OS and architecture stands before the place its entry takes. */
  ghost predicate Unobstructed(image: ComponentImage, ms: seq<Descriptor>, b: Descriptor) {
    forall k :: 0 <= k < MatchIndex(ms, b) ==> !MatchesPlatform(image, ms[k])
  }

  /** The entry that b replaces is of the image's OS and architecture just when b is. */
  lemma ReplacesLike(image: ComponentImage, ms: seq<Descriptor>, b: Descriptor)
    requires b.digest != image.digest && Agree(image, ms, [b])
    ensures var i := MatchIndex(ms, b);
            i < |ms| ==> (MatchesPlatform(image, ms[i]) <==> MatchesPlatform(image, b))
  {
    var i := MatchIndex(ms, b);
    assert b in [b] && (i < |ms| ==> ms[i] in ms);
  }

  lemma AgreeNext(image: ComponentImage, ms: seq<Descriptor>, bs: seq<Descriptor>)
    requires bs != [] && Agree(image, ms, bs) && NoMatchingPairs(bs)
    ensures Agree(image, ms, [bs[0]]) && Agree(image, UpsertManifest(ms, bs[0]), bs[1..]) && NoMatchingPairs(bs[1..])
  {
    assert bs[0] in bs;
    assert forall i :: 0 <= i < |bs[1..]| ==> bs[1..][i] == bs[i + 1];
    forall x, b | x in UpsertManifest(ms, bs[0]) && b in bs[1..] && x.digest == b.digest && b.digest != image.digest
      ensures MatchesPlatform(image, x) <==> MatchesPlatform(image, b)
    {
      var i :| 0 <= i < |bs[1..]| && bs[1..][i] == b;
      assert !SameManifest(bs[0], bs[i + 1]);
      assert x in ms;
    }
  }

  /** Entries that do not match the image's entry change nothing once that entry is in at p. */
  lemma {:induction false} OthersKeep(image: ComponentImage, ms: seq<Descriptor>, bs: seq<Descriptor>, p: nat)
    requires p < |ms| && ms[p].digest == image.digest && forall k :: 0 <= k < p ==> ms[k].digest != image.digest
    requires NoMatchingPairs(bs) && Agree(image, ms, bs)
    requires forall b :: b in bs ==> b.digest != image.digest && !SameManifest(ms[p], b)
    ensures Listed(image, UpsertManifests(ms, bs)) <==> forall k :: 0 <= k < p ==> !MatchesPlatform(image, ms[k])
    decreases |bs|
  {
    if bs == [] {
      ListedAt(image, ms, p);
    } else {
      var b, next := bs[0], UpsertManifest(ms, bs[0]);
      var i := MatchIndex(ms, b);
      assert b in bs;
      AgreeNext(image, ms, bs);
      ReplacesLike(image, ms, b);
      assert i != p && next[p] == ms[p];
      assert forall k :: 0 <= k < p ==> next[k] == if k == i then b else ms[k];
      OthersKeep(image, next, bs[1..], p);
    }
  }

  lemma ListedAt(image: ComponentImage, ms: seq<Descriptor>, p: nat)
    requires p < |ms| && ms[p].digest == image.digest && forall k :: 0 <= k < p ==> ms[k].digest != image.digest
    ensures Listed(image, ms) <==> forall k :: 0 <= k < p ==> !MatchesPlatform(image, ms[k])
  {
    var q := HitIndex(image, ms);
    assert Hit(image, ms[p]);
    if forall k :: 0 <= k < p ==> !MatchesPlatform(image, ms[k]) {
      HitIndexIs(image, ms, p);
    }
  }

  /** Below j the two lists differ at most in entries of other platforms. */
  lemma PlaceBelow(image: ComponentImage, ms: seq<Descriptor>, next: seq<Descriptor>, i: nat, j: nat)
    requires j <= |ms| <= |next| && forall k :: 0 <= k < |ms| && k != i ==> next[k] == ms[k]
    requires i < |next| && !MatchesPlatform(image, next[i]) && (i < |ms| ==> !MatchesPlatform(image, ms[i]))
    ensures (forall k :: 0 <= k < j ==> !MatchesPlatform(image, next[k])) <==>
            (forall k :: 0 <= k < j ==> !MatchesPlatform(image, ms[k]))
  {
    forall k | 0 <= k < j
      ensures MatchesPlatform(image, next[k]) <==> MatchesPlatform(image, ms[k])
    {
      assert k != i ==> next[k] == ms[k];
    }
  }

  /** Before the image's own entry comes, entries that do not settle its check leave its place as free as it was. */
  lemma OtherKeepsPlace(image: ComponentImage, ms: seq<Descriptor>, b: Descriptor, child: Descriptor)
    requires !Hit(image, b) && Agree(image, ms, [b]) && !SameManifest(b, child)
    requires child.digest == image.digest && Placed(image, [child]) && Placed(image, ms)
    ensures Unobstructed(image, UpsertManifest(ms, b), child) <==> Unobstructed(image, ms, child)
  {
    var i, j, next := MatchIndex(ms, b), MatchIndex(ms, child), UpsertManifest(ms, b);
    assert child in [child];
    ReplacesLike(image, ms, b);
    if i < |ms| {
      assert ms[i] in ms && !SameManifest(ms[i], child);
      MatchIndexIs(next, child, j);
    } else {
      assert next == ms + [b];
      MatchIndexIs(next, child, if j < |ms| then j else |ms| + 1);
    }
    PlaceBelow(image, ms, next, i, j);
  }

  /** After the join the image is found if and only if its place was free. */
  lemma {:induction false} JoinListsExactly(image: ComponentImage, ms: seq<Descriptor>, bs: seq<Descriptor>)
    requires Listed(image, bs) && NoMatchingPairs(bs)
    requires Placed(image, bs) && Placed(image, ms) && Agree(image, ms, bs)
    ensures Listed(image, UpsertManifests(ms, bs)) <==> Unobstructed(image, ms, Child(image, bs))
    decreases |bs|
  {
    AgreeNext(image, ms, bs);
    if HitIndex(image, bs) == 0 {
      ChildFirst(image, ms, bs);
    } else {
      ChildInRest(image, bs);
      OtherKeepsPlace(image, ms, bs[0], Child(image, bs));
      JoinListsExactly(image, UpsertManifest(ms, bs[0]), bs[1..]);
    }
  }

  lemma ChildFirst(image: ComponentImage, ms: seq<Descriptor>, bs: seq<Descriptor>)
    requires Listed(image, bs) && NoMatchingPairs(bs) && Agree(image, ms, bs) && HitIndex(image, bs) == 0
    ensures Listed(image, UpsertManifests(ms, bs)) <==> Unobstructed(image, ms, bs[0])
  {
    var b, next, p := bs[0], UpsertManifest(ms, bs[0]), MatchIndex(ms, bs[0]);
    AgreeNext(image, ms, bs);
    forall c | c in bs[1..]
      ensures !SameManifest(b, c)
    {
      var i :| 0 <= i < |bs[1..]| && bs[1..][i] == c;
      assert !SameManifest(bs[0], bs[i + 1]);
    }
    assert next[p] == b && forall k :: 0 <= k < p ==> next[k] == ms[k] && !SameManifest(ms[k], b);
    OthersKeep(image, next, bs[1..], p);
  }

  lemma ChildInRest(image: ComponentImage, bs: seq<Descriptor>)
    requires Listed(image, bs) && NoMatchingPairs(bs) && HitIndex(image, bs) > 0
    ensures Listed(image, bs[1..]) && Child(image, bs[1..]) == Child(image, bs) && Child(image, bs) in bs
    ensures !Hit(image, bs[0]) && !SameManifest(bs[0], Child(image, bs))
  {
    var q := HitIndex(image, bs);
    assert forall i :: 0 <= i < |bs[1..]| ==> bs[1..][i] == bs[i + 1] && bs[i + 1] in bs;
    HitIndexIs(image, bs[1..], q - 1);
    assert !SameManifest(bs[0], bs[q]);
  }

  // ---- a repository inside the imported files

  ghost function RepoOf(m: Files, repo: string): Repo {
    Repo(At(m, IndexFile(repo)), map n | n in m && n.BlobFile? && n.repo == repo :: n.digest := m[n])
  }

  ghost function EntryIn(m: Files, repo: string, tag: string): Option<Descriptor> {
    Resolve(IndexOf(RepoOf(m, repo)), ByTag(tag))
  }

  /** Cache and bundle both name an image index under the tag, and not the same one. */
  ghost predicate Joined(cache: Files, src: Files, repo: string, tag: string) {
    && EntryIn(cache, repo, tag).Some? && EntryIn(src, repo, tag).Some?
    && Merges(EntryIn(cache, repo, tag).value, EntryIn(src, repo, tag).value)
  }

  ghost function ChildrenOf(d: Digest): seq<Descriptor> {
    if d.Sha256? && d.content.Json? then d.content.doc.manifests else []
  }

  lemma BlobsOf(m: Files, repo: string, d: Digest)
    ensures d in RepoOf(m, repo).blobs <==> BlobFile(repo, d) in m
    ensures BlobFile(repo, d) in m ==> RepoOf(m, repo).blobs[d] == m[BlobFile(repo, d)]
  {
    if BlobFile(repo, d) in m {
      assert BlobFile(repo, d).digest == d;
    }
  }

  /** The index of a repository in whole files. */
  lemma IndexIn(m: Files, repo: string)
    requires Whole(m)
    ensures ReadRepoIndex(RepoOf(m, repo)).Ok?
    ensures IndexOf(RepoOf(m, repo)) == if IndexFile(repo) in m then m[IndexFile(repo)].doc.manifests else []
  {
    if IndexFile(repo) in m {
      var ms := m[IndexFile(repo)].doc.manifests;
      assert WholeIndex(m, repo, ms);
      assert forall e :: e in ms ==> e.digest.Sha256?;
    }
  }

  /** The imported repository: the merged index over all the bundle's blobs. */
  lemma ImportedRepo(cache: Files, src: Files, files: seq<File>, repo: string)
    requires Whole(cache) && WholeBundle(src, files) && IndexFile(repo) in src
    ensures var m := Import(cache, src, files).cache;
            && Whole(m) && Grows(RepoOf(src, repo), RepoOf(m, repo)) && ReadRepoIndex(RepoOf(m, repo)).Ok?
            && IndexOf(RepoOf(m, repo)) == MergedList(IndexOf(RepoOf(cache, repo)), IndexOf(RepoOf(src, repo)))
  {
    ImportEnds(cache, src, files);
    var m := Import(cache, src, files).cache;
    GoodNow(cache, src, Import(cache, src, files));
    assert IsFinal(cache, src, m, IndexFile(repo));
    IndexIn(cache, repo);
    IndexIn(src, repo);
    IndexIn(m, repo);
    forall d | d in RepoOf(src, repo).blobs
      ensures d in RepoOf(m, repo).blobs
    {
      BlobsOf(src, repo, d);
      BlobsOf(m, repo, d);
      assert IsFinal(cache, src, m, BlobFile(repo, d));
    }
    forall d | d in RepoOf(m, repo).blobs
      ensures Has(RepoOf(m, repo), d)
    {
      BlobsOf(m, repo, d);
    }
  }

  /** What a key of the bundle names after the import. */
  lemma ImportedEntry(cache: Files, src: Files, files: seq<File>, repo: string, key: EntryKey)
    requires Whole(cache) && WholeBundle(src, files) && Resolve(IndexOf(RepoOf(src, repo)), key).Some?
    ensures IndexFile(repo) in src
    ensures var m, e := Import(cache, src, files).cache, Resolve(IndexOf(RepoOf(src, repo)), key).value;
            && Resolve(IndexOf(RepoOf(m, repo)), key) == Some(MergedEntry(IndexOf(RepoOf(cache, repo)), e))
            && e in IndexOf(RepoOf(src, repo)) && e.Key() == key
            && Has(RepoOf(m, repo), MergedEntry(IndexOf(RepoOf(cache, repo)), e).digest)
  {
    IndexIn(src, repo);
    ImportedRepo(cache, src, files, repo);
    var m, ns := Import(cache, src, files).cache, IndexOf(RepoOf(src, repo));
    var e := ns[KeyIndex(ns, key)];
    assert e in ns && WholeIndex(src, repo, ns);
    MergedListHas(IndexOf(RepoOf(cache, repo)), ns, e);
    IndexIn(m, repo);
    NamedIsPresent(m, repo, IndexOf(RepoOf(m, repo)), key, MergedEntry(IndexOf(RepoOf(cache, repo)), e));
    BlobsOf(m, repo, MergedEntry(IndexOf(RepoOf(cache, repo)), e).digest);
  }

  /** A tag that is not joined reads after the import as it does in the bundle. */
  lemma TagTakenOver(cache: Files, src: Files, files: seq<File>, repo: string, tag: string)
    requires Whole(cache) && WholeBundle(src, files) && tag != "" && EntryIn(src, repo, tag).Some?
    requires !Joined(cache, src, repo, tag)
    ensures ReadTaggedIndex(RepoOf(Import(cache, src, files).cache, repo), tag) ==
            ReadTaggedIndex(RepoOf(src, repo), tag)
  {
    ImportedEntry(cache, src, files, repo, ByTag(tag));
    ImportedRepo(cache, src, files, repo);
    IndexIn(src, repo);
    var e := EntryIn(src, repo, tag).value;
    BundleHolds(src, repo, e);
    SameContent(RepoOf(src, repo), RepoOf(Import(cache, src, files).cache, repo), e);
  }

  lemma BundleHolds(src: Files, repo: string, e: Descriptor)
    requires Whole(src) && e in IndexOf(RepoOf(src, repo))
    ensures Has(RepoOf(src, repo), e.digest)
  {
    IndexIn(src, repo);
    assert WholeIndex(src, repo, IndexOf(RepoOf(src, repo)));
    BlobsOf(src, repo, e.digest);
  }

  lemma SameContent(a: Repo, b: Repo, e: Descriptor)
    requires Has(a, e.digest) && Has(b, e.digest)
    ensures TaggedContent(a, e) == TaggedContent(b, e)
  {
  }

  /** A joined tag reads after the import as the join of the two indexes. */
  lemma TagJoined(cache: Files, src: Files, files: seq<File>, repo: string, tag: string)
    requires Whole(cache) && WholeBundle(src, files) && tag != "" && Joined(cache, src, repo, tag)
    requires ChildrenOf(EntryIn(src, repo, tag).value.digest) != []
    ensures var r := RepoOf(Import(cache, src, files).cache, repo);
            && ReadTaggedIndex(r, tag).Ok?
            && View(r, tag) == UpsertManifests(ChildrenOf(EntryIn(cache, repo, tag).value.digest),
                                               ChildrenOf(EntryIn(src, repo, tag).value.digest))
  {
    ImportedEntry(cache, src, files, repo, ByTag(tag));
    ImportedRepo(cache, src, files, repo);
    IndexIn(src, repo);
    IndexIn(cache, repo);
    JoinedContent(cache, src, repo, tag);
    var bs := ChildrenOf(EntryIn(src, repo, tag).value.digest);
    JoinNotEmpty(ChildrenOf(EntryIn(cache, repo, tag).value.digest), bs);
  }

  lemma JoinedContent(cache: Files, src: Files, repo: string, tag: string)
    requires Whole(cache) && Whole(src) && tag != "" && Joined(cache, src, repo, tag)
    ensures var a, b := EntryIn(cache, repo, tag).value, EntryIn(src, repo, tag).value;
            var e := MergedEntry(IndexOf(RepoOf(cache, repo)), b);
            && e.digest.Sha256? && e.digest.content.Json?
            && e.digest.content.doc.manifests == UpsertManifests(ChildrenOf(a.digest), ChildrenOf(b.digest))
  {
    IndexIn(src, repo);
    IndexIn(cache, repo);
    var ms, ns := IndexOf(RepoOf(cache, repo)), IndexOf(RepoOf(src, repo));
    assert ms[KeyIndex(ms, ByTag(tag))] in ms && ns[KeyIndex(ns, ByTag(tag))] in ns;
    assert WholeIndex(cache, repo, ms) && WholeIndex(src, repo, ns);
  }

  lemma {:induction false} JoinNotEmpty(ms: seq<Descriptor>, bs: seq<Descriptor>)
    ensures |UpsertManifests(ms, bs)| >= |ms| && (bs != [] ==> UpsertManifests(ms, bs) != [])
    decreases |bs|
  {
    if bs != [] {
      JoinNotEmpty(UpsertManifest(ms, bs[0]), bs[1..]);
    }
  }

  // ---- the result

  ghost function TagChildren(m: Files, repo: string, image: ComponentImage): seq<Descriptor>
    requires image.Tag() != "" && EntryIn(m, repo, image.Tag()).Some?
  {
    ChildrenOf(EntryIn(m, repo, image.Tag()).value.digest)
  }

  /** Where tags are joined, the bundle's list holds the image and no two matching entries, both lists name
      the image under its own platform or none, and they agree on the platform of other shared digests. */
  ghost predicate Comparable(cache: Files, src: Files, repo: string, image: ComponentImage) {
    image.Tag() != "" && Joined(cache, src, repo, image.Tag()) ==>
      var ms, bs := TagChildren(cache, repo, image), TagChildren(src, repo, image);
      && Listed(image, bs) && NoMatchingPairs(bs)
      && Placed(image, bs) && Placed(image, ms) && Agree(image, ms, bs)
  }

  /** The tag is not joined, or nothing of the image's OS and architecture is in the way. */
  ghost predicate Free(cache: Files, src: Files, repo: string, image: ComponentImage)
    requires Comparable(cache, src, repo, image)
  {
    image.Tag() != "" && Joined(cache, src, repo, image.Tag()) ==>
      Unobstructed(image, TagChildren(cache, repo, image), Child(image, TagChildren(src, repo, image)))
  }

  /** An image that is recorded and cached in the bundle is cached after the import if and only if the
      tag's index in the cache has nothing of its OS and architecture before its place. */
  lemma ImportedIsCached(cache: Files, src: Files, files: seq<File>, repo: string, image: ComponentImage)
    requires Whole(cache) && WholeBundle(src, files) && Comparable(cache, src, repo, image)
    requires Recorded(RepoOf(src, repo), image) && Cached(RepoOf(src, repo), image)
    ensures Cached(RepoOf(Import(cache, src, files).cache, repo), image) <==> Free(cache, src, repo, image)
  {
    var s, r := RepoOf(src, repo), RepoOf(Import(cache, src, files).cache, repo);
    ImportedEntry(cache, src, files, repo, ByDigest(image.digest));
    ImportedRepo(cache, src, files, repo);
    GrowsKeepsComplete(s, r, image.digest);
    assert IndexOf(r)[KeyIndex(IndexOf(r), ByDigest(image.digest))].digest == image.digest;
    assert HasDigest(IndexOf(r), image.digest);
    if image.Tag() != "" {
      ImportedTag(cache, src, files, repo, image);
      if image.SeparatePin().Some? {
        GrowsKeepsComplete(s, r, image.SeparatePin().value);
      }
    }
  }

  /** In particular over a cache that does not know the image's tag, such as a fresh one. */
  lemma NewTagIsCached(cache: Files, src: Files, files: seq<File>, repo: string, image: ComponentImage)
    requires Whole(cache) && WholeBundle(src, files)
    requires Recorded(RepoOf(src, repo), image) && Cached(RepoOf(src, repo), image)
    requires image.Tag() != "" ==> EntryIn(cache, repo, image.Tag()).None?
    ensures Cached(RepoOf(Import(cache, src, files).cache, repo), image)
  {
    ImportedIsCached(cache, src, files, repo, image);
  }

  lemma ImportedTag(cache: Files, src: Files, files: seq<File>, repo: string, image: ComponentImage)
    requires Whole(cache) && WholeBundle(src, files) && Comparable(cache, src, repo, image) && image.Tag() != ""
    requires ReadTaggedIndex(RepoOf(src, repo), image.Tag()).Ok? && Listed(image, View(RepoOf(src, repo), image.Tag()))
    ensures var r := RepoOf(Import(cache, src, files).cache, repo);
            && ReadTaggedIndex(r, image.Tag()).Ok?
            && (Listed(image, View(r, image.Tag())) <==> Free(cache, src, repo, image))
  {
    var tag := image.Tag();
    assert EntryIn(src, repo, tag).Some?;
    if Joined(cache, src, repo, tag) {
      var a, b := EntryIn(cache, repo, tag).value, EntryIn(src, repo, tag).value;
      TagJoined(cache, src, files, repo, tag);
      JoinListsExactly(image, ChildrenOf(a.digest), ChildrenOf(b.digest));
    } else {
      TagTakenOver(cache, src, files, repo, tag);
    }
  }
}
