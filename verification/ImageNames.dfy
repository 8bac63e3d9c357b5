/** Image reference text: its parts, the registry host it names, and its place in the cache. */
module ImageNames {
  import opened Texts

  datatype Parts = Parts(repository: string, tag: string, digest: string)

  function SplitImageRef(image: string): Parts {
    var name := Before(image, '@');
    SplitName(name, if |name| < |image| then image[|name| + 1..] else "")
  }

  function SplitName(name: string, digest: string): Parts {
    var slash, colon := AfterLast(name, '/'), AfterLast(name, ':');
    if colon > slash then Parts(name[..colon - 1], name[colon..], digest) else Parts(name, "", digest)
  }

  /** A tag keeps to its own characters, and without one a repository's last segment has no colon. */
  predicate Plain(p: Parts) {
    && '@' !in p.repository && '@' !in p.tag
    && '/' !in p.tag && ':' !in p.tag
    && (p.tag == "" ==> AfterLast(p.repository, ':') <= AfterLast(p.repository, '/'))
  }

  function Named(p: Parts): string {
    if p.tag != "" then p.repository + ":" + p.tag else p.repository
  }

  function JoinImageRef(p: Parts): string {
    if p.digest != "" then Named(p) + "@" + p.digest else Named(p)
  }

  /** Splitting undoes joining. */
  lemma SplitUndoesJoin(p: Parts)
    requires Plain(p)
    ensures SplitImageRef(JoinImageRef(p)) == p
  {
    NameOfImage(Named(p), p.digest);
    NameParts(p);
  }

  /** Every image text is the text of its parts, up to a last colon or at sign with nothing after it; and its
      parts are plain, unless such a colon was left out. */
  lemma JoinUndoesSplit(image: string)
    ensures var p, name := SplitImageRef(image), Before(image, '@');
            && (name == Named(p) || (p.tag == "" && name == p.repository + ":"))
            && (image == name + "@" + p.digest || (p.digest == "" && image == name))
            && (name == Named(p) ==> Plain(p))
  {
    var name := Before(image, '@');
    if |name| < |image| {
      assert image == name + "@" + image[|name| + 1..];
    }
    SplitNameParts(name, SplitImageRef(image).digest);
  }

  lemma SplitNameParts(name: string, digest: string)
    requires '@' !in name
    ensures var p := SplitName(name, digest);
            && (name == Named(p) || (p.tag == "" && name == p.repository + ":"))
            && (name == Named(p) ==> Plain(p))
  {
    var slash, colon := AfterLast(name, '/'), AfterLast(name, ':');
    if colon > slash {
      assert name == name[..colon - 1] + ":" + name[colon..];
      forall k | colon <= k < |name|
        ensures name[k] != '/'
      {
        assert name[k] == name[slash..][k - slash] && name[slash..][k - slash] in name[slash..];
      }
    }
  }

  lemma NameOfImage(name: string, digest: string)
    requires '@' !in name
    ensures var image := if digest != "" then name + "@" + digest else name;
            SplitImageRef(image) == SplitName(name, digest)
  {
    if digest != "" {
      var image := name + "@" + digest;
      BeforeIs(image, '@', name);
      assert image[|name| + 1..] == digest;
    } else {
      BeforeIs(name, '@', name);
    }
  }

  lemma NameParts(p: Parts)
    requires Plain(p)
    ensures SplitName(Named(p), p.digest) == p
  {
    if p.tag != "" {
      SlashOfName(p.repository, p.tag);
      ColonOfName(p.repository, p.tag);
    }
  }

  lemma SlashOfName(repository: string, tag: string)
    requires '/' !in tag
    ensures AfterLast(repository + ":" + tag, '/') == AfterLast(repository, '/')
  {
    var slash := AfterLast(repository, '/');
    assert (repository + ":" + tag)[slash..] == repository[slash..] + ":" + tag;
    AfterLastIs(repository + ":" + tag, '/', slash);
  }

  lemma ColonOfName(repository: string, tag: string)
    requires ':' !in tag
    ensures AfterLast(repository + ":" + tag, ':') == |repository| + 1
  {
    assert (repository + ":" + tag)[|repository| + 1..] == tag;
    AfterLastIs(repository + ":" + tag, ':', |repository| + 1);
  }

  const DOCKER := "docker.io"

  predicate IsHost(segment: string) {
    '.' in segment || ':' in segment || segment == "localhost"
  }

  function RegistryHost(repository: string): string {
    var first := Before(repository, '/');
    if IsHost(first) then first else DOCKER
  }

  const MIRROR := "mirror/"

  function SourceRepo(repository: string): string {
    if IsHost(Before(repository, '/')) then repository
    else if '/' in repository then DOCKER + "/" + repository
    else DOCKER + "/library/" + repository
  }

  function MirrorRepo(repository: string): string {
    MIRROR + SourceRepo(repository)
  }

  /** Images that share a cache repository share a registry, so they meet at one host limit. */
  lemma SameRepoSameHost(a: string, b: string)
    requires MirrorRepo(a) == MirrorRepo(b)
    ensures RegistryHost(a) == RegistryHost(b)
  {
    assert MirrorRepo(a)[|MIRROR|..] == SourceRepo(a) && MirrorRepo(b)[|MIRROR|..] == SourceRepo(b);
    HostOfSourceRepo(a);
    HostOfSourceRepo(b);
  }

  /** The cache path starts with the registry host. */
  lemma HostOfSourceRepo(repository: string)
    ensures Before(SourceRepo(repository), '/') == RegistryHost(repository)
  {
    if !IsHost(Before(repository, '/')) {
      BeforeIs(SourceRepo(repository), '/', DOCKER);
    }
  }

  /** The first segment names a registry: it has a dot or a colon, or is localhost. */
  ghost predicate NamesRegistry(repository: string) {
    var first := Before(repository, '/');
    '.' in first || ':' in first || first == "localhost"
  }

  /** The full name as Docker Hub resolves it: an image that names no registry is on Docker Hub, and an official
      one under library. */
  ghost function FullName(repository: string): string {
    if NamesRegistry(repository) then repository
    else if '/' in repository then "docker.io/" + repository
    else "docker.io/library/" + repository
  }

  lemma Literals()
    ensures DOCKER + "/" == "docker.io/" && DOCKER + "/library/" == "docker.io/library/"
  {
  }

  /** An image is kept under its full name, and its registry is the first segment of that. */
  lemma MirrorPlace(repository: string)
    ensures MirrorRepo(repository) == "mirror/" + FullName(repository)
    ensures RegistryHost(repository) == Before(FullName(repository), '/')
    ensures !NamesRegistry(repository) ==> RegistryHost(repository) == "docker.io"
  {
    Literals();
    HostOfSourceRepo(repository);
    assert SourceRepo(repository) == FullName(repository);
  }

  lemma FullTwice(repository: string)
    ensures FullName(FullName(repository)) == FullName(repository)
  {
    MirrorPlace(repository);
    assert DOCKER[6] == '.';
  }

  lemma SameAfter(prefix: string, a: string, b: string)
    ensures prefix + a == prefix + b <==> a == b
  {
    assert (prefix + a)[|prefix|..] == a && (prefix + b)[|prefix|..] == b;
  }

  /** Two images share a place exactly when they share their full name, and a full name is its own. */
  lemma SamePlaceSameName(a: string, b: string)
    ensures FullName(FullName(a)) == FullName(a)
    ensures MirrorRepo(a) == MirrorRepo(b) <==> FullName(a) == FullName(b)
  {
    FullTwice(a);
    MirrorPlace(a);
    MirrorPlace(b);
    SameAfter("mirror/", FullName(a), FullName(b));
  }

  lemma Regroup(a: string, b: string, c: string)
    ensures a + (b + c) == a + b + c
  {
  }

  lemma FirstSegment(first: string, rest: string)
    requires '/' !in first
    ensures Before(first + "/" + rest, '/') == first && '/' in first + "/" + rest
  {
    BeforeIs(first + "/" + rest, '/', first);
  }

  lemma LibraryName(name: string)
    requires '/' !in name && !NamesRegistry(name)
    ensures FullName("library" + "/" + name) == FullName(name)
  {
    var middle := "library" + "/" + name;
    FirstSegment("library", name);
    Regroup("docker.io/", "library" + "/", name);
    assert "docker.io/" + ("library" + "/") == "docker.io/library/";
  }

  /** An official image has one place, however much of its name is written out. */
  lemma OfficialImages(name: string)
    requires '/' !in name && !NamesRegistry(name)
    ensures MirrorRepo(name) == MirrorRepo("library" + "/" + name) == MirrorRepo("docker.io/library/" + name)
  {
    SamePlaceSameName(name, "library" + "/" + name);
    SamePlaceSameName(name, "docker.io/library/" + name);
    LibraryName(name);
    FullTwice(name);
  }
}
