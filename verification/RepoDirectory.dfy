/** A repository directory as the code changes it, file by file. */
module RepoDirectory {
  import opened Results
  import opened Oci
  import opened ImageStore
  import opened TagListings

  /** The operations stop at the k-th one, which did not do its work, and s is what is left. */
  ghost predicate StopsIn(ops: seq<Op>, r: Repo, k: nat, left: Option<Blob>, s: Repo)
    requires k < |ops|
  {
    var before := Run(ops[..k], r, NO_LOCAL);
    before.Ok? && s == Damage(ops[k], before.value.0, before.value.1, left)
  }

  /** The operations stop before their end, and s is what they leave. */
  ghost predicate StopsAt(ops: seq<Op>, r: Repo, s: Repo) {
    exists k, left :: 0 <= k < |ops| && StopsIn(ops, r, k, left, s)
  }

  /** ok tells whether the operations were all performed; s is what they leave either way. When nothing
      outside goes wrong (calm), they stop only where they have to. */
  ghost predicate Leaves(ops: seq<Op>, r: Repo, calm: bool, ok: bool, s: Repo) {
    if ok then Run(ops, r, NO_LOCAL).Ok? && Run(ops, r, NO_LOCAL).value.0 == s
    else StopsAt(ops, r, s) && (calm ==> Run(ops, r, NO_LOCAL).Err?)
  }

  lemma StopsAtOnce(ops: seq<Op>, r: Repo)
    requires ops != []
    ensures StopsAt(ops, r, r)
    ensures forall left :: StopsAt(ops, r, Damage(ops[0], r, NO_LOCAL, left))
  {
    StopsHere(ops, r, 0, r, NO_LOCAL);
    assert Damage(ops[0], r, NO_LOCAL, None) == r;
  }

  /** Operations a ran to m, operations b from there; c is never reached when b stops. */
  lemma ThenLeaves(a: seq<Op>, b: seq<Op>, c: seq<Op>, r: Repo, m: Repo, calm: bool, ok: bool, s: Repo)
    requires Run(a, r, NO_LOCAL) == Ok((m, NO_LOCAL)) && Leaves(b, m, calm, ok, s)
    ensures Leaves(if ok then a + b else a + b + c, r, calm, ok, s)
  {
    RunAppend(a, b, r, NO_LOCAL);
    RunAppend(a + b, c, r, NO_LOCAL);
    if !ok {
      var k, left :| 0 <= k < |b| && StopsIn(b, m, k, left, s);
      assert (a + b + c)[..|a| + k] == a + b[..k];
      RunAppend(a, b[..k], r, NO_LOCAL);
      assert StopsIn(a + b + c, r, |a| + k, left, s);
    }
  }

  lemma SingleLeaves(op: Op, r: Repo)
    ensures Run([op], r, NO_LOCAL) == Step(op, r, NO_LOCAL)
    ensures Step(op, r, NO_LOCAL).Ok? ==> forall calm :: Leaves([op], r, calm, true, Step(op, r, NO_LOCAL).value.0)
    ensures forall calm :: !calm || Step(op, r, NO_LOCAL).Err? ==> Leaves([op], r, calm, false, r)
    ensures forall left :: Leaves([op], r, false, false, Damage(op, r, NO_LOCAL, left))
  {
    StopsAtOnce([op], r);
    assert [op][..0] == [];
    assert Run([op][..0], r, NO_LOCAL) == Ok((r, NO_LOCAL));
    var next := Step(op, r, NO_LOCAL);
    if next.Ok? {
      assert Run([op], r, NO_LOCAL) == Run([op][1..], next.value.0, next.value.1);
    }
  }

  function TaggedOps(tag: string, entry: Descriptor): seq<Op> {
    [LoadTag(tag), StoreTag(entry), LoadRepo, StoreTagged(tag, entry)]
  }

  /** What the four operations leave, and where they can stop: before the blob is written or in the
      middle, and likewise for the index. */
  lemma TaggedLeaves(tag: string, entry: Descriptor, r: Repo)
    requires tag != ""
    ensures StopsAt(TaggedOps(tag, entry), r, r)
    ensures ReadTaggedIndex(r, tag).Err? ==> Run(TaggedOps(tag, entry), r, NO_LOCAL).Err?
    ensures ReadTaggedIndex(r, tag).Ok? ==>
              var tagged := WithManifest(ReadTaggedIndex(r, tag).value, entry);
              var h := PutBlob(r, Encode(tagged));
              && ReadRepoIndex(r).Ok? && StopsAt(TaggedOps(tag, entry), r, h)
              && (forall b :: StopsAt(TaggedOps(tag, entry), r, BlobLeft(r, Sha256(Encode(tagged)), b)))
              && (forall b :: StopsAt(TaggedOps(tag, entry), r, IndexLeft(h, b)))
              && Run(TaggedOps(tag, entry), r, NO_LOCAL).Ok?
              && Run(TaggedOps(tag, entry), r, NO_LOCAL).value.0 ==
                 PutIndex(h, WithTag(ReadRepoIndex(r).value, tag, entry, tagged))
  {
    var ops, read := TaggedOps(tag, entry), ReadTaggedIndex(r, tag);
    StopsAtOnce(ops, r);
    if read.Ok? {
      var tagged, repoIndex := WithManifest(read.value, entry), ReadRepoIndex(r).value;
      var h := PutBlob(r, Encode(tagged));
      var x, y := NO_LOCAL.(tagIndex := read.value), NO_LOCAL.(tagIndex := tagged);
      var z := y.(repoIndex := repoIndex);
      TagSteps(tag, entry, r);
      RepoSteps(tag, entry, r, h, y);
      FourSteps(ops, r, r, x, h, y, h, z, PutIndex(h, WithTag(repoIndex, tag, entry, tagged)), z);
      TagStops(ops, tag, entry, r, x, h, y, z);
    }
  }

  lemma TagStops(ops: seq<Op>, tag: string, entry: Descriptor, r: Repo, x: Local, h: Repo, y: Local, z: Local)
    requires ops == TaggedOps(tag, entry) && y.tagIndex == WithManifest(x.tagIndex, entry)
    requires Run(ops[..1], r, NO_LOCAL) == Ok((r, x)) && Run(ops[..2], r, NO_LOCAL) == Ok((h, y))
    requires Run(ops[..3], r, NO_LOCAL) == Ok((h, z))
    ensures StopsAt(ops, r, h)
    ensures forall b :: StopsAt(ops, r, BlobLeft(r, Sha256(Encode(y.tagIndex)), b))
    ensures forall b :: StopsAt(ops, r, IndexLeft(h, b))
  {
    StopsHere(ops, r, 1, r, x);
    StopsHere(ops, r, 2, h, y);
    StopsHere(ops, r, 3, h, z);
    assert Damage(ops[2], h, y, None) == h;
    assert forall b :: BlobLeft(r, Sha256(Encode(y.tagIndex)), b) == Damage(ops[1], r, x, Some(b));
    assert forall b :: IndexLeft(h, b) == Damage(ops[3], h, z, Some(b));
  }

  lemma StopsHere(ops: seq<Op>, r: Repo, k: nat, m: Repo, x: Local)
    requires k < |ops| && Run(ops[..k], r, NO_LOCAL) == Ok((m, x))
    ensures forall left :: StopsAt(ops, r, Damage(ops[k], m, x, left))
  {
    forall left
      ensures StopsAt(ops, r, Damage(ops[k], m, x, left))
    {
      assert StopsIn(ops, r, k, left, Damage(ops[k], m, x, left));
    }
  }

  lemma TagSteps(tag: string, entry: Descriptor, r: Repo)
    requires tag != "" && ReadTaggedIndex(r, tag).Ok?
    ensures var i := ReadTaggedIndex(r, tag).value;
            var x := NO_LOCAL.(tagIndex := i);
            && Step(LoadTag(tag), r, NO_LOCAL) == Ok((r, x))
            && Step(StoreTag(entry), r, x) ==
               Ok((PutBlob(r, Encode(WithManifest(i, entry))), x.(tagIndex := WithManifest(i, entry))))
  {
  }

  lemma RepoSteps(tag: string, entry: Descriptor, r: Repo, h: Repo, y: Local)
    requires tag != "" && ReadTaggedIndex(r, tag).Ok? && h.indexFile == r.indexFile
    ensures ReadRepoIndex(r).Ok?
    ensures var z := y.(repoIndex := ReadRepoIndex(r).value);
            && Step(LoadRepo, h, y) == Ok((h, z))
            && Step(StoreTagged(tag, entry), h, z) ==
               Ok((PutIndex(h, WithTag(z.repoIndex, tag, entry, y.tagIndex)), z))
  {
  }

  lemma FourSteps(ops: seq<Op>, r: Repo, r1: Repo, x1: Local, r2: Repo, x2: Local, r3: Repo, x3: Local, r4: Repo,
                  x4: Local)
    requires |ops| == 4
    requires Step(ops[0], r, NO_LOCAL) == Ok((r1, x1)) && Step(ops[1], r1, x1) == Ok((r2, x2))
    requires Step(ops[2], r2, x2) == Ok((r3, x3)) && Step(ops[3], r3, x3) == Ok((r4, x4))
    ensures Run(ops, r, NO_LOCAL) == Ok((r4, x4)) && Run(ops[..1], r, NO_LOCAL) == Ok((r1, x1))
    ensures Run(ops[..2], r, NO_LOCAL) == Ok((r2, x2)) && Run(ops[..3], r, NO_LOCAL) == Ok((r3, x3))
  {
    assert ops[..0] == [] && ops[..4] == ops;
    RunSnoc(ops, 0, r, NO_LOCAL);
    RunSnoc(ops, 1, r, NO_LOCAL);
    RunSnoc(ops, 2, r, NO_LOCAL);
    RunSnoc(ops, 3, r, NO_LOCAL);
  }

  /** A fetch that fails is where the walk stops. */
  lemma FetchStops(d: Digest, r: Repo, s: Repo)
    requires d.Sha256?
    ensures StopsAt([Fetch(d)], r, s) ==> StopsAt(BlobOps(d), r, s)
  {
    if StopsAt([Fetch(d)], r, s) {
      var left :| StopsIn([Fetch(d)], r, 0, left, s);
      assert [Fetch(d)][..0] == BlobOps(d)[..0];
      assert StopsIn(BlobOps(d), r, 0, left, s);
    }
  }

  /** A fetched file is written in place. */
  lemma InPlace(op: Op, d: Digest, r: Repo, s: Repo)
    requires op == Fetch(d) || (op.FetchPart? && op.part.digest == d)
    ensures (s == r || exists b :: s == BlobLeft(r, d, b)) ==> Leaves([op], r, false, false, s)
  {
    SingleLeaves(op, r);
    if b :| s == BlobLeft(r, d, b) {
      assert s == Damage(op, r, NO_LOCAL, Some(b));
    }
  }

  /** The config file comes first. */
  lemma FirstPart(config: Descriptor, layers: seq<Descriptor>, r: Repo, calm: bool, ok: bool, s: Repo)
    requires Leaves([FetchPart(config)], r, calm, ok, s)
    ensures if ok then Run(PartOps(([config] + layers)[..1]), r, NO_LOCAL) == Ok((s, NO_LOCAL))
            else Leaves(PartOps([config] + layers), r, calm, false, s)
  {
    var op := FetchPart(config);
    assert ([config] + layers)[..1] == [config] && ([config] + layers)[1..] == layers;
    assert PartOps([config]) == [op] + PartOps([config][1..]) == [op];
    SingleLeaves(op, r);
    assert Run([], r, NO_LOCAL) == Ok((r, NO_LOCAL));
    ThenLeaves([], [op], PartOps(layers), r, r, calm, ok, s);
    assert [] + [op] + PartOps(layers) == PartOps([config] + layers);
  }

  function WithTag(i: Index, tag: string, entry: Descriptor, tagged: Index): Index {
    i.(manifests := Upsert(Upsert(i.manifests, entry), TagEntry(tag, tagged)))
  }

  lemma {:induction false} ChildOpsSnoc(d: Digest, cs: seq<Descriptor>, c: Descriptor)
    requires forall e :: e in cs + [c] ==> e.digest < d
    ensures ChildOps(d, cs + [c]) == ChildOps(d, cs) + BlobOps(c.digest)
    decreases |cs|
  {
    if cs == [] {
      assert ChildOps(d, [c]) == BlobOps(c.digest) + ChildOps(d, []);
    } else {
      assert (cs + [c])[1..] == cs[1..] + [c];
      ChildOpsSnoc(d, cs[1..], c);
    }
  }

  lemma {:induction false} PartOpsSnoc(ps: seq<Descriptor>, p: Descriptor)
    ensures PartOps(ps + [p]) == PartOps(ps) + [FetchPart(p)]
  {
    if ps != [] {
      assert (ps + [p])[1..] == ps[1..] + [p];
      PartOpsSnoc(ps[1..], p);
    }
  }

  lemma {:induction false} ChildOpsSplit(d: Digest, a: seq<Descriptor>, b: seq<Descriptor>)
    requires forall e :: e in a + b ==> e.digest < d
    ensures ChildOps(d, a + b) == ChildOps(d, a) + ChildOps(d, b)
    decreases |a|
  {
    if a == [] {
      assert a + b == b;
    } else {
      assert (a + b)[1..] == a[1..] + b;
      ChildOpsSplit(d, a[1..], b);
    }
  }

  lemma ChildOpsAt(d: Digest, children: seq<Descriptor>, i: nat)
    requires i < |children| && forall c :: c in children ==> c.digest < d
    ensures ChildOps(d, children[..i + 1]) == ChildOps(d, children[..i]) + BlobOps(children[i].digest)
    ensures ChildOps(d, children) == ChildOps(d, children[..i + 1]) + ChildOps(d, children[i + 1..])
  {
    assert children[..i + 1] == children[..i] + [children[i]];
    assert children == children[..i + 1] + children[i + 1..];
    ChildOpsSnoc(d, children[..i], children[i]);
    ChildOpsSplit(d, children[..i + 1], children[i + 1..]);
  }

  lemma {:induction false} PartOpsSplit(a: seq<Descriptor>, b: seq<Descriptor>)
    ensures PartOps(a + b) == PartOps(a) + PartOps(b)
  {
    if a == [] {
      assert a + b == b;
    } else {
      assert (a + b)[1..] == a[1..] + b;
      PartOpsSplit(a[1..], b);
    }
  }

  lemma PutRuns(entry: Descriptor, r: Repo, x: Local)
    ensures var ops := [LoadRepo, StoreRepo(entry)];
            && StopsAt(ops, r, r)
            && (ReadRepoIndex(r).Ok? ==> forall b :: StopsAt(ops, r, IndexLeft(r, b)))
            && Run(ops[..1], r, x) ==
               (if ReadRepoIndex(r).Err? then Err else Ok((r, x.(repoIndex := ReadRepoIndex(r).value))))
            && Run(ops, r, x) ==
               if ReadRepoIndex(r).Err? then Err
               else Ok((WithEntry(r, entry), x.(repoIndex := ReadRepoIndex(r).value)))
  {
    var ops := [LoadRepo, StoreRepo(entry)];
    assert ops[..2] == ops && ops[..0] == [];
    StopsAtOnce(ops, r);
    RunSnoc(ops, 0, r, x);
    RunSnoc(ops, 1, r, x);
    RunSnoc(ops, 0, r, NO_LOCAL);
    if ReadRepoIndex(r).Ok? {
      StopsHere(ops, r, 1, r, NO_LOCAL.(repoIndex := ReadRepoIndex(r).value));
      assert forall b :: IndexLeft(r, b) == Damage(ops[1], r, NO_LOCAL.(repoIndex := ReadRepoIndex(r).value), Some(b));
    }
  }

  lemma PutStops(e: Descriptor, r: Repo, s: Repo)
    requires StopsAt([LoadRepo, StoreRepo(e)], r, s)
    ensures s == r || (ReadRepoIndex(r).Ok? && s.indexFile.Some? && s == IndexLeft(r, s.indexFile.value))
  {
    var ops := [LoadRepo, StoreRepo(e)];
    var k, left :| 0 <= k < |ops| && StopsIn(ops, r, k, left, s);
    assert ops[..0] == [];
    PutRuns(e, r, NO_LOCAL);
  }

  lemma TwoPuts(e: Descriptor, f: Descriptor, r: Repo, h: Repo, calm: bool, ok: bool, s: Repo)
    requires Leaves([LoadRepo, StoreRepo(e)], r, calm, true, h) && Leaves([LoadRepo, StoreRepo(f)], h, calm, ok, s)
    ensures Leaves([LoadRepo, StoreRepo(e), LoadRepo, StoreRepo(f)], r, calm, ok, s)
  {
    PutRuns(e, r, NO_LOCAL);
    var x := NO_LOCAL.(repoIndex := ReadRepoIndex(r).value);
    var a, b := [LoadRepo, StoreRepo(e)], [LoadRepo, StoreRepo(f)];
    assert a + b == [LoadRepo, StoreRepo(e), LoadRepo, StoreRepo(f)];
    RunAppend(a, b, r, NO_LOCAL);
    PutRuns(f, h, x);
    PutRuns(f, h, NO_LOCAL);
    if !ok {
      SecondPutStops(a, b, f, r, h, x, s);
    }
  }

  lemma SecondPutStops(a: seq<Op>, b: seq<Op>, f: Descriptor, r: Repo, h: Repo, x: Local, s: Repo)
    requires b == [LoadRepo, StoreRepo(f)] && StopsAt(b, h, s) && Run(a, r, NO_LOCAL) == Ok((h, x))
    ensures StopsAt(a + b, r, s)
  {
    PutStops(f, h, s);
    assert (a + b)[..|a|] == a && (a + b)[..|a| + 1] == a + b[..1];
    if s == h {
      StopsHere(a + b, r, |a|, h, x);
      assert Damage((a + b)[|a|], h, x, None) == s;
    } else {
      PutRuns(f, h, x);
      RunAppend(a, b[..1], r, NO_LOCAL);
      var y := x.(repoIndex := ReadRepoIndex(h).value);
      StopsHere(a + b, r, |a| + 1, h, y);
      assert Damage((a + b)[|a| + 1], h, y, s.indexFile) == s;
    }
  }

  lemma FirstPutStops(e: Descriptor, f: Descriptor, r: Repo, calm: bool, s: Repo)
    requires Leaves([LoadRepo, StoreRepo(e)], r, calm, false, s)
    ensures Leaves([LoadRepo, StoreRepo(e), LoadRepo, StoreRepo(f)], r, calm, false, s)
  {
    PutStops(e, r, s);
    PutRuns(e, r, NO_LOCAL);
    var a, b := [LoadRepo, StoreRepo(e)], [LoadRepo, StoreRepo(f)];
    assert a + b == [LoadRepo, StoreRepo(e), LoadRepo, StoreRepo(f)];
    RunAppend(a, b, r, NO_LOCAL);
    StopsAtOnce(a + b, r);
    assert (a + b)[..1] == a[..1];
    if s != r {
      var x := NO_LOCAL.(repoIndex := ReadRepoIndex(r).value);
      StopsHere(a + b, r, 1, r, x);
      assert Damage((a + b)[1], r, x, s.indexFile) == s;
    }
  }

  class RepoDir {
    var indexFile: Option<Blob>
    var blobs: map<Digest, Blob>

    /** Whether the n-th file or network access goes wrong, and what a write in place that goes wrong
        then leaves in its file. */
    const disturbance: nat -> bool
    const leftover: nat -> Option<Blob>
    var count: nat

    constructor (r: Repo, disturbance: nat -> bool, leftover: nat -> Option<Blob>)
      ensures State() == r && this.disturbance == disturbance
    {
      indexFile, blobs, count := r.indexFile, r.blobs, 0;
      this.disturbance, this.leftover := disturbance, leftover;
    }

    method Disturbed() returns (d: bool)
      modifies this`count
      ensures d ==> !Calm(disturbance)
    {
      d := disturbance(count);
      count := count + 1;
    }

    /** Writes a file of the blob directory in place. */
    method WriteBlob(d: Digest, b: Blob) returns (ok: bool)
      modifies this`blobs, this`count
      ensures ok ==> blobs == old(blobs)[d := b]
      ensures !ok ==> !Calm(disturbance)
      ensures !ok ==> State() == old(State()) || exists x :: State() == BlobLeft(old(State()), d, x)
    {
      var left := leftover(count);
      var failed := Disturbed();
      if failed {
        if left.Some? {
          blobs := blobs[d := left.value];
          assert State() == BlobLeft(old(State()), d, left.value);
        }
        return false;
      }
      blobs := blobs[d := b];
      return true;
    }

    /** Writes the index file in place. */
    method WriteIndexFile(i: Index) returns (ok: bool)
      modifies this`indexFile, this`count
      ensures ok ==> indexFile == Some(Encode(i))
      ensures !ok ==> !Calm(disturbance)
      ensures !ok ==> State() == old(State()) || exists b :: State() == IndexLeft(old(State()), b)
    {
      var left := leftover(count);
      var failed := Disturbed();
      if failed {
        if left.Some? {
          indexFile := left;
          assert State() == IndexLeft(old(State()), left.value);
        }
        return false;
      }
      indexFile := Some(Encode(i));
      return true;
    }

    function State(): Repo
      reads this`indexFile, this`blobs
    {
      Repo(indexFile, blobs)
    }

    // ---- indexes

    method FindTag(tag: string) returns (r: Result<Index>)
      requires tag != ""
      ensures r == ReadTaggedIndex(State(), tag)
    {
      var repoIndex := ReadRepoIndex(State());
      if repoIndex.Err? {
        return Err;
      }
      var ms := repoIndex.value.manifests;
      for i := 0 to |ms|
        invariant forall k :: 0 <= k < i ==> ms[k].Key() != ByTag(tag)
      {
        if ms[i].Tag() == tag {
          KeyIndexIs(ms, ByTag(tag), i);
          return TaggedContent(State(), ms[i]);
        }
      }
      KeyIndexIs(ms, ByTag(tag), |ms|);
      return Ok(EMPTY_INDEX);
    }

    method UpsertRepoIndexDescriptor(entry: Descriptor) returns (ok: bool)
      modifies this`indexFile, this`count
      ensures Leaves([LoadRepo, StoreRepo(entry)], old(State()), Calm(disturbance), ok, State())
    {
      PutRuns(entry, State(), NO_LOCAL);
      var unread := Disturbed();
      var read := ReadRepoIndex(State());
      if unread || read.Err? {
        return false;
      }
      var index := new ImageIndex(read.value.manifests);
      index.UpsertIndexDescriptor(entry);
      ok := WriteIndexFile(read.value.(manifests := index.manifests));
    }

    method UpsertTaggedImageIndex(tag: string, entry: Descriptor) returns (ok: bool)
      requires tag != ""
      modifies this
      ensures Leaves(TaggedOps(tag, entry), old(State()), Calm(disturbance), ok, State())
    {
      TaggedLeaves(tag, entry, State());
      var unread := Disturbed();
      var read := FindTag(tag);
      if unread || read.Err? {
        return false;
      }
      var image := new ImageIndex(read.value.manifests);
      image.UpsertManifestDescriptor(entry);
      var tagged := read.value.(manifests := image.manifests);
      ok := WriteBlob(Sha256(Encode(tagged)), Encode(tagged));
      if ok {
        ok := PutTag(tag, entry, tagged);
      }
    }

    /** The repository index takes the image's own entry and the tag's. */
    method PutTag(tag: string, entry: Descriptor, tagged: Index) returns (ok: bool)
      requires ReadRepoIndex(State()).Ok?
      modifies this`indexFile, this`count
      ensures ok ==> State() == old(PutIndex(State(), WithTag(ReadRepoIndex(State()).value, tag, entry, tagged)))
      ensures !ok ==> !Calm(disturbance)
      ensures !ok ==> State() == old(State()) || exists b :: State() == IndexLeft(old(State()), b)
    {
      var unread := Disturbed();
      if unread {
        return false;
      }
      var repoIndex := ReadRepoIndex(State()).value;
      var index := new ImageIndex(repoIndex.manifests);
      index.UpsertIndexDescriptor(entry);
      index.UpsertIndexDescriptor(TagEntry(tag, tagged));
      ok := WriteIndexFile(repoIndex.(manifests := index.manifests));
    }

    // ---- blobs

    method FetchBlob(d: Digest) returns (ok: bool)
      modifies this`blobs, this`count
      ensures Leaves([Fetch(d)], old(State()), Calm(disturbance), ok, State())
    {
      SingleLeaves(Fetch(d), State());
      var failed := Disturbed();
      if failed || d.Unsupported? {
        return false;
      }
      ok := WriteBlob(d, d.content);
      InPlace(Fetch(d), d, old(State()), State());
    }

    /** A config file. */
    method FetchConfig(p: Descriptor) returns (ok: bool)
      modifies this`blobs, this`count
      ensures Leaves([FetchPart(p)], old(State()), Calm(disturbance), ok, State())
    {
      SingleLeaves(FetchPart(p), State());
      var failed := Disturbed();
      if failed || p.digest.Unsupported? || Length(p.digest.content) != p.size {
        return false;
      }
      ok := WriteBlob(p.digest, p.digest.content);
      InPlace(FetchPart(p), p.digest, old(State()), State());
    }

    /** A layer file; one that is already there and whole is not fetched again, and another one is
        written beside its place and moved there. */
    method FetchLayer(p: Descriptor) returns (ok: bool)
      modifies this`blobs, this`count
      ensures Leaves([FetchPart(p)], old(State()), Calm(disturbance), ok, State())
      ensures !ok ==> State() == old(State())
    {
      SingleLeaves(FetchPart(p), State());
      var complete := BlobComplete(State(), p.digest, p.size);
      if complete == Ok(true) {
        assert PutBlob(State(), p.digest.content) == State();
        return true;
      }
      var failed := Disturbed();
      if failed || complete.Err? || Length(p.digest.content) != p.size {
        return false;
      }
      blobs := blobs[p.digest := p.digest.content];
      return true;
    }

    method WriteDescriptorBlobs(d: Digest) returns (ok: bool)
      modifies this`blobs, this`count
      ensures Leaves(BlobOps(d), old(State()), Calm(disturbance), ok, State())
      ensures ok ==> Run(BlobOps(d), old(State()), NO_LOCAL) == Ok((State(), NO_LOCAL))
      decreases d
    {
      ghost var r := State();
      if d.Unsupported? {
        SingleLeaves(Reject, r);
        return false;
      }
      var fetched := FetchBlob(d);
      SingleLeaves(Fetch(d), r);
      FetchStops(d, r, State());
      if !fetched {
        return false;
      }
      SingleLeaves(Reject, State());
      ghost var first := State();
      ThenLeaves([Fetch(d)], [Reject], [], r, first, Calm(disturbance), false, first);
      assert [Fetch(d)] + [Reject] + [] == [Fetch(d), Reject];
      if d.content.Opaque? {
        return false;
      }
      var doc := d.content.doc;
      if IsIndexType(doc.mediaType) {
        ok := WriteChildren(d, doc.manifests);
        ThenLeaves([Fetch(d)], ChildOps(d, doc.manifests), [], r, first, Calm(disturbance), ok, State());
        RunAppend([Fetch(d)], ChildOps(d, doc.manifests), r, NO_LOCAL);
        assert [Fetch(d)] + ChildOps(d, doc.manifests) + [] == BlobOps(d);
        return;
      }
      if doc.config.None? {
        return false;
      }
      ok := WriteParts(doc.config.value, doc.layers);
      ghost var parts := [doc.config.value] + doc.layers;
      ThenLeaves([Fetch(d)], PartOps(parts), [], r, first, Calm(disturbance), ok, State());
      RunAppend([Fetch(d)], PartOps(parts), r, NO_LOCAL);
      assert [Fetch(d)] + PartOps(parts) + [] == BlobOps(d);
    }

    method WriteChildren(d: Digest, children: seq<Descriptor>) returns (ok: bool)
      requires forall c :: c in children ==> c.digest < d
      modifies this`blobs, this`count
      ensures Leaves(ChildOps(d, children), old(State()), Calm(disturbance), ok, State())
      ensures ok ==> Run(ChildOps(d, children), old(State()), NO_LOCAL) == Ok((State(), NO_LOCAL))
      decreases d, 0
    {
      ghost var r := State();
      for i := 0 to |children|
        invariant indexFile == old(indexFile)
        invariant Run(ChildOps(d, children[..i]), r, NO_LOCAL) == Ok((State(), NO_LOCAL))
      {
        ghost var m := State();
        ok := WriteDescriptorBlobs(children[i].digest);
        ChildOpsAt(d, children, i);
        ThenLeaves(ChildOps(d, children[..i]), BlobOps(children[i].digest), ChildOps(d, children[i + 1..]), r, m,
          Calm(disturbance), ok, State());
        if !ok {
          return;
        }
        RunAppend(ChildOps(d, children[..i]), BlobOps(children[i].digest), r, NO_LOCAL);
      }
      assert children[..|children|] == children;
      ok := true;
    }

    method WriteParts(config: Descriptor, layers: seq<Descriptor>) returns (ok: bool)
      modifies this`blobs, this`count
      ensures Leaves(PartOps([config] + layers), old(State()), Calm(disturbance), ok, State())
      ensures ok ==> Run(PartOps([config] + layers), old(State()), NO_LOCAL) == Ok((State(), NO_LOCAL))
    {
      ghost var r, parts := State(), [config] + layers;
      ok := FetchConfig(config);
      FirstPart(config, layers, r, Calm(disturbance), ok, State());
      if !ok {
        return;
      }
      for i := 0 to |layers|
        invariant indexFile == old(indexFile)
        invariant Run(PartOps(parts[..i + 1]), r, NO_LOCAL) == Ok((State(), NO_LOCAL))
      {
        ghost var m := State();
        ok := FetchLayer(layers[i]);
        assert parts[..i + 2] == parts[..i + 1] + [layers[i]];
        assert parts == parts[..i + 2] + parts[i + 2..];
        PartOpsSnoc(parts[..i + 1], layers[i]);
        PartOpsSplit(parts[..i + 2], parts[i + 2..]);
        ThenLeaves(PartOps(parts[..i + 1]), [FetchPart(layers[i])], PartOps(parts[i + 2..]), r, m, Calm(disturbance),
          ok, State());
        if !ok {
          return;
        }
        SingleLeaves(FetchPart(layers[i]), m);
        RunAppend(PartOps(parts[..i + 1]), [FetchPart(layers[i])], r, NO_LOCAL);
      }
      assert parts[..|layers| + 1] == parts;
      ok := true;
    }

    // ---- whole images

    method WriteComponentImage(image: ComponentImage) returns (ok: bool)
      modifies this
      ensures Leaves(Program(image), old(State()), Calm(disturbance), ok, State())
      ensures ok ==> WriteImage(old(State()), image) == Ok(State())
    {
      ghost var r, rest := State(), RecordOps(image);
      var entry := ImageEntry(image);
      var pin := image.SeparatePin();
      assert Program(image) == FetchOps(image) + RecordOps(image);
      if pin.Some? {
        ok := FetchBlob(pin.value);
        SingleLeaves(Fetch(pin.value), r);
        ThenLeaves([], [Fetch(pin.value)], BlobOps(image.digest) + rest, r, r, Calm(disturbance), ok, State());
        assert [] + [Fetch(pin.value)] + (BlobOps(image.digest) + rest) == Program(image);
        if !ok {
          return;
        }
      }
      ghost var pinned, m := if pin.Some? then [Fetch(pin.value)] else [], State();
      ok := WriteDescriptorBlobs(image.digest);
      ThenLeaves(pinned, BlobOps(image.digest), rest, r, m, Calm(disturbance), ok, State());
      if !ok {
        return;
      }
      RunAppend(pinned, BlobOps(image.digest), r, NO_LOCAL);
      ghost var fetched := State();
      assert Run(FetchOps(image), r, NO_LOCAL) == Ok((fetched, NO_LOCAL));
      if pin.Some? {
        var pinEntry := RemoteDescriptor(pin.value, None);
        if image.Tag() == "" {
          ok := UpsertRepoIndexDescriptor(pinEntry);
        } else {
          var tagged := pinEntry.(annotations := map[REF_NAME := image.Tag()]);
          ok := UpsertRepoIndexDescriptor(entry);
          if ok {
            ghost var h := State();
            ok := UpsertRepoIndexDescriptor(tagged);
            TwoPuts(entry, tagged, fetched, h, Calm(disturbance), ok, State());
          } else {
            FirstPutStops(entry, tagged, fetched, Calm(disturbance), State());
          }
        }
      } else if image.Tag() == "" {
        ok := UpsertRepoIndexDescriptor(entry);
      } else {
        ok := UpsertTaggedImageIndex(image.Tag(), entry);
      }
      ThenLeaves(FetchOps(image), rest, [], r, fetched, Calm(disturbance), ok, State());
      assert FetchOps(image) + rest + [] == Program(image);
    }

    /** The loop over a tag's entries, and over the repository's for an untagged reference. */
    method ComponentImageCached(image: ComponentImage) returns (r: Result<bool>)
      ensures r == CheckCached(State(), image)
    {
      var repoIndex := ReadRepoIndex(State());
      if repoIndex.Err? {
        return Err;
      }
      if image.Tag() == "" {
        var ms := repoIndex.value.manifests;
        for i := 0 to |ms|
          invariant forall k :: 0 <= k < i ==> ms[k].digest != image.digest
        {
          if ms[i].digest == image.digest {
            return Complete(State(), ms[i].digest);
          }
        }
        return Ok(false);
      }
      var index := FindTag(image.Tag());
      if index.Err? {
        return Err;
      }
      var ms := index.value.manifests;
      for i := 0 to |ms|
        invariant forall k :: 0 <= k < i ==> !Hit(image, ms[k])
      {
        if ms[i].digest != image.digest && MatchesPlatform(image, ms[i]) {
          HitIndexIs(image, ms, i);
          return Ok(false);
        }
        if ms[i].digest == image.digest {
          HitIndexIs(image, ms, i);
          if !HasDigest(repoIndex.value.manifests, image.digest) {
            return Ok(false);
          }
          var complete := Complete(State(), image.digest);
          if complete != Ok(true) || image.SeparatePin().None? {
            return complete;
          }
          return Complete(State(), image.SeparatePin().value);
        }
      }
      HitIndexIs(image, ms, |ms|);
      return Ok(false);
    }
  }
}
