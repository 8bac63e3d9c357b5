/** How the image index of one tag changes while several images are recorded under that tag. */
module TagListings {
  import opened Results
  import opened Oci
  import opened ImageStore

  /** An image together with the entry that records it. */
  datatype Listing = Listing(image: ComponentImage, entry: Descriptor)

  /** The images of a tag, each with the entry that records it. */
  ghost function ListingsOf(images: set<ComponentImage>, tag: string,
                            entry: ComponentImage -> Descriptor): set<Listing> {
    set i | i in images && i.Tag() == tag :: Listing(i, entry(i))
  }

  /** The entry carries the image's digest, and its own platform or none. */
  ghost predicate Own(l: Listing) {
    l.entry.digest == l.image.digest && (l.entry.platform.Some? ==> MatchesPlatform(l.image, l.entry))
  }

  /** No two of the images compete for one OS and architecture. */
  ghost predicate Apart(ls: set<Listing>) {
    && (forall l :: l in ls ==> Own(l))
    && forall a, b :: a in ls && b in ls && a.image.digest != b.image.digest ==> !MatchesPlatform(a.image, b.entry)
  }

  /** No entry that already carries one image's digest sits on another image's platform. */
  ghost predicate Honest(ls: set<Listing>, ms: seq<Descriptor>) {
    forall a, b, k | a in ls && b in ls && a.image.digest != b.image.digest && 0 <= k < |ms| ::
      ms[k].digest == a.image.digest ==> !SamePlatform(ms[k].platform, b.entry.platform)
  }

  /** Every other entry of the image's OS and architecture has a variant that the image's own entry
      replaces, or stands behind the image. */
  ghost predicate Ready(l: Listing, ms: seq<Descriptor>) {
    forall k :: 0 <= k < |ms| && MatchesPlatform(l.image, ms[k]) && ms[k].digest != l.image.digest ==>
                  || SamePlatform(ms[k].platform, l.entry.platform)
                  || exists j :: 0 <= j < k && ms[j].digest == l.image.digest
  }

  lemma HitIndexIs(image: ComponentImage, ms: seq<Descriptor>, i: nat)
    requires i <= |ms| && (i < |ms| ==> Hit(image, ms[i]))
    requires forall k :: 0 <= k < i ==> !Hit(image, ms[k])
    ensures HitIndex(image, ms) == i
  {
  }

  /** An image is found after its own update exactly when no other entry of its OS and architecture
      stands before the place the update takes. */
  lemma UpsertListsExactly(l: Listing, ms: seq<Descriptor>)
    requires l.entry.digest == l.image.digest
    ensures Listed(l.image, UpsertManifest(ms, l.entry)) <==>
            forall k :: 0 <= k < MatchIndex(ms, l.entry) ==> !MatchesPlatform(l.image, ms[k])
  {
    var p := MatchIndex(ms, l.entry);
    var after := UpsertManifest(ms, l.entry);
    if forall k :: 0 <= k < p ==> !MatchesPlatform(l.image, ms[k]) {
      HitIndexIs(l.image, after, p);
    } else {
      var k :| 0 <= k < p && MatchesPlatform(l.image, ms[k]);
      assert after[k] == ms[k] && Hit(l.image, after[k]);
      var i := HitIndex(l.image, after);
      assert i <= k && after[i] == ms[i] && !SameManifest(ms[i], l.entry);
    }
  }

  lemma UpsertLists(l: Listing, ms: seq<Descriptor>)
    requires l.entry.digest == l.image.digest && Ready(l, ms)
    ensures Listed(l.image, UpsertManifest(ms, l.entry))
  {
    UpsertListsExactly(l, ms);
  }

  /** Recording one image leaves the others found, ready and unmixed. */
  lemma UpsertKeepsListings(ls: set<Listing>, ms: seq<Descriptor>, l: Listing, z: Listing)
    requires Apart(ls) && Honest(ls, ms) && l in ls && z in ls
    ensures Honest(ls, UpsertManifest(ms, z.entry))
    ensures Ready(l, ms) ==> Ready(l, UpsertManifest(ms, z.entry))
    ensures Listed(l.image, ms) ==> Listed(l.image, UpsertManifest(ms, z.entry))
  {
    var p := MatchIndex(ms, z.entry);
    var after := UpsertManifest(ms, z.entry);
    forall a, b, k | a in ls && b in ls && a.image.digest != b.image.digest && 0 <= k < |after| &&
                     after[k].digest == a.image.digest
      ensures !SamePlatform(after[k].platform, b.entry.platform)
    {
      if k == p {
        assert !MatchesPlatform(z.image, b.entry);
      }
    }
    if Ready(l, ms) {
      ReadyAfter(ls, ms, l, z);
    }
    if Listed(l.image, ms) {
      ListedAfter(ls, ms, l, z);
    }
  }

  lemma ReadyAfter(ls: set<Listing>, ms: seq<Descriptor>, l: Listing, z: Listing)
    requires Apart(ls) && Honest(ls, ms) && l in ls && z in ls && Ready(l, ms)
    ensures Ready(l, UpsertManifest(ms, z.entry))
  {
    var p := MatchIndex(ms, z.entry);
    var after := UpsertManifest(ms, z.entry);
    forall k | 0 <= k < |after| && MatchesPlatform(l.image, after[k]) && after[k].digest != l.image.digest &&
               !SamePlatform(after[k].platform, l.entry.platform)
      ensures exists j :: 0 <= j < k && after[j].digest == l.image.digest
    {
      assert k != p;
      var j :| 0 <= j < k && ms[j].digest == l.image.digest;
      assert j == p ==> z.image.digest == l.image.digest;
      assert after[j].digest == l.image.digest;
    }
  }

  lemma ListedAfter(ls: set<Listing>, ms: seq<Descriptor>, l: Listing, z: Listing)
    requires Apart(ls) && Honest(ls, ms) && l in ls && z in ls && Listed(l.image, ms)
    ensures Listed(l.image, UpsertManifest(ms, z.entry))
  {
    var p := MatchIndex(ms, z.entry);
    var q := HitIndex(l.image, ms);
    HitIndexIs(l.image, UpsertManifest(ms, z.entry),
               if z.image.digest == l.image.digest && p < q then p else q);
  }
}
