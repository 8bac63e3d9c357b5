/** One repository directory of the registry cache: what is read from it, the checks on it, and the
    sequence of file operations that stores one image. */
module ImageStore {
  import opened Results
  import opened Oci

  /** An image reference split into its repository, tag and pinned digest. */
  datatype Reference = Reference(repository: string, tag: string, pin: Option<Digest>)

  /** The platform is the text of the manifest entry cut at its slashes. */
  datatype ComponentImage = ComponentImage(reference: Reference, digest: Digest, platform: seq<string>) {
    function Tag(): string { reference.tag }

    /** A pinned digest that is not the image's own: the upstream image index. */
    function SeparatePin(): Option<Digest> {
      if reference.pin.Some? && reference.pin.value != digest then reference.pin else None
    }
  }

  /** Contents of a repository directory: index.json when present, and the blob files by name. */
  datatype Repo = Repo(indexFile: Option<Blob>, blobs: map<Digest, Blob>)

  const EMPTY_REPO := Repo(None, map[])

  /** A repository of a cache, empty when it has no directory. */
  function RepoAt(cache: map<string, Repo>, name: string): Repo {
    if name in cache then cache[name] else EMPTY_REPO
  }

  function ParsePlatform(parts: seq<string>): Option<Platform> {
    if |parts| < 2 then None
    else Some(Platform(parts[0], parts[1], if |parts| > 2 then parts[2] else ""))
  }

  /** The cache check compares OS and architecture and ignores the variant. */
  predicate MatchesPlatform(image: ComponentImage, e: Descriptor) {
    && |image.platform| >= 2
    && e.platform.Some?
    && e.platform.value.os == image.platform[0]
    && e.platform.value.arch == image.platform[1]
  }

  // ---- reading

  function ReadRepoIndex(r: Repo): Result<Index> {
    match r.indexFile
    case None => Ok(EMPTY_INDEX)
    case Some(Opaque(_)) => Err
    case Some(Json(doc, _)) =>
      if exists e | e in doc.manifests :: e.digest.Unsupported? then Err
      else Ok(Decode(doc).(schemaVersion := if doc.schemaVersion == 0 then 2 else doc.schemaVersion))
  }

  /** The local image index that a tag names. */
  function ReadTaggedIndex(r: Repo, tag: string): Result<Index>
    requires tag != ""
  {
    var repoIndex :- ReadRepoIndex(r);
    match Resolve(repoIndex.manifests, ByTag(tag))
    case None => Ok(EMPTY_INDEX)
    case Some(entry) => TaggedContent(r, entry)
  }

  function TaggedContent(r: Repo, entry: Descriptor): Result<Index> {
    if entry.digest !in r.blobs then Ok(EMPTY_INDEX)
    else match r.blobs[entry.digest]
      case Opaque(_) => Err
      case Json(doc, _) =>
        if doc.manifests == [] && entry.mediaType != INDEX_TYPE then Ok(EMPTY_INDEX.(manifests := [entry]))
        else Ok(Index(
                  if doc.schemaVersion == 0 then 2 else doc.schemaVersion,
                  if doc.mediaType == "" then INDEX_TYPE else doc.mediaType,
                  doc.manifests))
  }

  // ---- checking

  /** A blob file with the expected size and content. */
  function BlobComplete(r: Repo, d: Digest, size: nat): Result<bool> {
    if d.Unsupported? then Err
    else Ok(d in r.blobs && Length(r.blobs[d]) == size && r.blobs[d] == d.content)
  }

  function PartsComplete(r: Repo, parts: seq<Descriptor>): Result<bool> {
    if parts == [] then Ok(true)
    else
      var first :- BlobComplete(r, parts[0].digest, parts[0].size);
      if first then PartsComplete(r, parts[1..]) else Ok(false)
  }

  function Parts(doc: Document): seq<Descriptor> {
    (if doc.config.Some? then [doc.config.value] else []) + doc.layers
  }

  /** The manifest blob and everything it refers to. */
  function Complete(r: Repo, d: Digest): Result<bool> {
    if d.Unsupported? then Err
    else if d !in r.blobs || r.blobs[d] != d.content then Ok(false)
    else if d.content.Opaque? then Err
    else PartsComplete(r, Parts(d.content.doc))
  }

  predicate HasDigest(ms: seq<Descriptor>, d: Digest) {
    exists e | e in ms :: e.digest == d
  }

  /** An entry that settles the check of an image: its digest, or another one for its platform. */
  predicate Hit(image: ComponentImage, e: Descriptor) {
    e.digest == image.digest || MatchesPlatform(image, e)
  }

  function HitIndex(image: ComponentImage, ms: seq<Descriptor>): (i: nat)
    ensures i <= |ms|
    ensures i < |ms| ==> Hit(image, ms[i])
    ensures forall k :: 0 <= k < i ==> !Hit(image, ms[k])
  {
    if ms == [] || Hit(image, ms[0]) then 0 else 1 + HitIndex(image, ms[1..])
  }

  /** The first entry that settles the check is the image itself. */
  predicate Listed(image: ComponentImage, ms: seq<Descriptor>) {
    var i := HitIndex(image, ms);
    i < |ms| && ms[i].digest == image.digest
  }

  function CheckCached(r: Repo, image: ComponentImage): Result<bool> {
    var repoIndex :- ReadRepoIndex(r);
    if image.Tag() == "" then
      if HasDigest(repoIndex.manifests, image.digest) then Complete(r, image.digest) else Ok(false)
    else
      var index :- ReadTaggedIndex(r, image.Tag());
      if !Listed(image, index.manifests) || !HasDigest(repoIndex.manifests, image.digest) then Ok(false)
      else
        var complete :- Complete(r, image.digest);
        if complete && image.SeparatePin().Some? then Complete(r, image.SeparatePin().value)
        else Ok(complete)
  }

  ghost predicate Cached(r: Repo, image: ComponentImage) {
    CheckCached(r, image) == Ok(true)
  }

  // ---- the file operations of one image, in program order

  /** Each operation is one read or one write. The registry client checks what it fetches against the
      requested digest, and config and layer blobs also against their recorded size. */
  datatype Op =
    | Fetch(digest: Digest)
    | FetchPart(part: Descriptor)
    | Reject
    | LoadTag(tag: string)
    | StoreTag(entry: Descriptor)
    | LoadRepo
    | StoreRepo(entry: Descriptor)
    | StoreTagged(tag: string, entry: Descriptor)

  /** What the code holds in local variables between two operations. */
  datatype Local = Local(tagIndex: Index, repoIndex: Index)

  const NO_LOCAL := Local(EMPTY_INDEX, EMPTY_INDEX)

  predicate IsIndexType(mediaType: string) {
    mediaType == INDEX_TYPE || mediaType == "application/vnd.docker.distribution.manifest.list.v2+json"
  }

  function BlobOps(d: Digest): seq<Op>
    decreases d
  {
    if d.Unsupported? then [Reject]
    else if d.content.Opaque? then [Fetch(d), Reject]
    else
      var doc := d.content.doc;
      if IsIndexType(doc.mediaType) then [Fetch(d)] + ChildOps(d, doc.manifests)
      else if doc.config.None? then [Fetch(d), Reject]
      else [Fetch(d)] + PartOps(Parts(doc))
  }

  function ChildOps(d: Digest, children: seq<Descriptor>): seq<Op>
    requires forall c :: c in children ==> c.digest < d
    decreases d, |children|
  {
    if children == [] then [] else BlobOps(children[0].digest) + ChildOps(d, children[1..])
  }

  function PartOps(parts: seq<Descriptor>): seq<Op> {
    if parts == [] then [] else [FetchPart(parts[0])] + PartOps(parts[1..])
  }

  function RemoteDescriptor(d: Digest, platform: Option<Platform>): Descriptor {
    match d
    case Sha256(Json(doc, n)) => Descriptor(doc.mediaType, d, n, platform, map[])
    case Sha256(Opaque(s)) => Descriptor("", d, |s|, platform, map[])
    case Unsupported(_) => Descriptor("", d, 0, platform, map[])
  }

  /** The entry that records an image itself. */
  function ImageEntry(image: ComponentImage): Descriptor {
    RemoteDescriptor(image.digest, ParsePlatform(image.platform))
  }

  function TagEntry(tag: string, i: Index): Descriptor {
    Descriptor(INDEX_TYPE, Sha256(Encode(i)), Length(Encode(i)), None, map[REF_NAME := tag])
  }

  function FetchOps(image: ComponentImage): seq<Op> {
    (if image.SeparatePin().Some? then [Fetch(image.SeparatePin().value)] else []) + BlobOps(image.digest)
  }

  function RecordOps(image: ComponentImage): seq<Op> {
    var entry, tag := ImageEntry(image), image.Tag();
    match image.SeparatePin()
    case Some(pin) =>
      var pinEntry := RemoteDescriptor(pin, None);
      if tag == "" then [LoadRepo, StoreRepo(pinEntry)]
      else [LoadRepo, StoreRepo(entry), LoadRepo, StoreRepo(pinEntry.(annotations := map[REF_NAME := tag]))]
    case None =>
      if tag == "" then [LoadRepo, StoreRepo(entry)]
      else [LoadTag(tag), StoreTag(entry), LoadRepo, StoreTagged(tag, entry)]
  }

  function Program(image: ComponentImage): seq<Op> {
    FetchOps(image) + RecordOps(image)
  }

  function PutIndex(r: Repo, i: Index): Repo {
    r.(indexFile := Some(Encode(i)))
  }

  /** The repository after its index took one more entry. */
  function WithEntry(r: Repo, e: Descriptor): Repo
    requires ReadRepoIndex(r).Ok?
  {
    PutIndex(r, ReadRepoIndex(r).value.(manifests := Upsert(ReadRepoIndex(r).value.manifests, e)))
  }

  /** An image index after it took one more child. */
  function WithManifest(i: Index, e: Descriptor): Index {
    i.(manifests := UpsertManifest(i.manifests, e))
  }

  function PutBlob(r: Repo, b: Blob): Repo {
    r.(blobs := r.blobs[Sha256(b) := b])
  }

  function Step(op: Op, r: Repo, x: Local): Result<(Repo, Local)> {
    match op
    case Fetch(d) => if d.Sha256? then Ok((PutBlob(r, d.content), x)) else Err
    case FetchPart(p) =>
      if p.digest.Sha256? && Length(p.digest.content) == p.size then Ok((PutBlob(r, p.digest.content), x)) else Err
    case Reject => Err
    case LoadTag(tag) =>
      if tag == "" then Err
      else
        var i :- ReadTaggedIndex(r, tag);
        Ok((r, x.(tagIndex := i)))
    case StoreTag(e) =>
      var i := WithManifest(x.tagIndex, e);
      Ok((PutBlob(r, Encode(i)), x.(tagIndex := i)))
    case LoadRepo =>
      var i :- ReadRepoIndex(r);
      Ok((r, x.(repoIndex := i)))
    case StoreRepo(e) =>
      Ok((PutIndex(r, x.repoIndex.(manifests := Upsert(x.repoIndex.manifests, e))), x))
    case StoreTagged(tag, e) =>
      Ok((PutIndex(r, x.repoIndex.(manifests :=
          Upsert(Upsert(x.repoIndex.manifests, e), TagEntry(tag, x.tagIndex)))), x))
  }

  function BlobLeft(r: Repo, d: Digest, b: Blob): Repo {
    r.(blobs := r.blobs[d := b])
  }

  function IndexLeft(r: Repo, b: Blob): Repo {
    r.(indexFile := Some(b))
  }

  /** What an operation that goes wrong leaves. Indexes, manifests and configs are written in place, so
      the file that was being written may hold anything. */
  function Damage(op: Op, r: Repo, x: Local, left: Option<Blob>): Repo {
    if left.None? then r
    else match op
      case Fetch(d) => BlobLeft(r, d, left.value)
      case FetchPart(p) => BlobLeft(r, p.digest, left.value)
      case StoreTag(e) => BlobLeft(r, Sha256(Encode(WithManifest(x.tagIndex, e))), left.value)
      case StoreRepo(_) => IndexLeft(r, left.value)
      case StoreTagged(_, _) => IndexLeft(r, left.value)
      case _ => r
  }

  function Run(ops: seq<Op>, r: Repo, x: Local): Result<(Repo, Local)>
    decreases |ops|
  {
    if ops == [] then Ok((r, x))
    else
      var next :- Step(ops[0], r, x);
      Run(ops[1..], next.0, next.1)
  }

  /** The repository after the first k operations of storing an image, run with nothing in between. */
  function Prefix(image: ComponentImage, r: Repo, k: nat): Result<(Repo, Local)>
    requires k <= |Program(image)|
  {
    Run(Program(image)[..k], r, NO_LOCAL)
  }

  function WriteImage(r: Repo, image: ComponentImage): Result<Repo> {
    var done :- Run(Program(image), r, NO_LOCAL);
    Ok(done.0)
  }

  lemma {:induction false} RunAppend(a: seq<Op>, b: seq<Op>, r: Repo, x: Local)
    ensures Run(a + b, r, x) == match Run(a, r, x) case Err => Err case Ok((s, y)) => Run(b, s, y)
    decreases |a|
  {
    if a == [] {
      assert a + b == b;
    } else {
      assert (a + b)[0] == a[0] && (a + b)[1..] == a[1..] + b;
      var next := Step(a[0], r, x);
      if next.Ok? {
        RunAppend(a[1..], b, next.value.0, next.value.1);
      }
    }
  }

  /** One more operation after a prefix. */
  lemma RunSnoc(ops: seq<Op>, k: nat, r: Repo, x: Local)
    requires k < |ops|
    ensures Run(ops[..k + 1], r, x) ==
            match Run(ops[..k], r, x) case Err => Err case Ok((s, y)) => Step(ops[k], s, y)
  {
    assert ops[..k + 1] == ops[..k] + [ops[k]];
    RunAppend(ops[..k], [ops[k]], r, x);
    var before := Run(ops[..k], r, x);
    if before.Ok? {
      var (s, y) := before.value;
      var next := Step(ops[k], s, y);
      assert Run([ops[k]], s, y) == if next.Ok? then Run([], next.value.0, next.value.1) else Err;
    }
  }
}
