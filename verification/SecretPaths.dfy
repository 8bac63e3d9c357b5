/** Which place a cluster ID and a path name, and that different paths name different secrets. */
module SecretPaths {
  import opened Results
  import opened Texts
  import opened SecretStore

  // ---- trimming

  ghost predicate AllDropped(s: string, drop: char -> bool) {
    forall c :: c in s ==> drop(c)
  }

  /** Nothing at either end is dropped. */
  ghost predicate Kept(s: string, drop: char -> bool) {
    s != "" ==> !drop(s[0]) && !drop(s[|s| - 1])
  }

  lemma {:induction false} LeftTrimmed(lead: string, s: string, drop: char -> bool)
    requires AllDropped(lead, drop) && (s != "" ==> !drop(s[0]))
    ensures TrimLeft(lead + s, drop) == s
    decreases |lead|
  {
    if lead == "" {
      assert lead + s == s;
    } else {
      assert lead[0] in lead && (lead + s)[1..] == lead[1..] + s;
      LeftTrimmed(lead[1..], s, drop);
    }
  }

  lemma {:induction false} RightTrimmed(s: string, trail: string, drop: char -> bool)
    requires AllDropped(trail, drop) && (s != "" ==> !drop(s[|s| - 1]))
    ensures TrimRight(s + trail, drop) == s
    decreases |trail|
  {
    if trail == "" {
      assert s + trail == s;
    } else {
      var n := |trail| - 1;
      assert trail[n] in trail && (s + trail)[..|s| + n] == s + trail[..n];
      RightTrimmed(s, trail[..n], drop);
    }
  }

  lemma Trimmed(lead: string, s: string, trail: string, drop: char -> bool)
    requires AllDropped(lead, drop) && AllDropped(trail, drop) && s != "" && Kept(s, drop)
    ensures Trim(lead + s + trail, drop) == s
  {
    assert lead + s + trail == lead + (s + trail);
    LeftTrimmed(lead, s + trail, drop);
    RightTrimmed(s, trail, drop);
  }

  // ---- paths

  /** What counts as blank around a path: the usual blanks do, and nothing printable of ASCII does. */
  lemma Blanks(c: char)
    ensures c == ' ' || c == '\t' || c == '\n' || c == '\r' ==> IsSpace(c)
    ensures '!' <= c <= '~' ==> !IsSpace(c)
  {
  }

  /** A path without outer blanks and slashes that does not begin with the version prefix. */
  ghost predicate Plain(p: string) {
    Kept(p, IsSpace) && Kept(p, c => c == '/') && !("v1/" <= p)
  }

  ghost predicate Slashes(s: string) {
    forall c :: c in s ==> c == '/'
  }

  /** A path is cleaned of outer blanks, of a slash and the version prefix in front, and of outer slashes, and
      of nothing else; a path v1 with a slash after it would be taken for the prefix. */
  lemma CleanedPath(lead: string, mark: string, before: string, p: string, after: string, trail: string)
    requires p != "" && Plain(p) && (p == "v1" ==> after == "")
    requires AllDropped(lead, IsSpace) && AllDropped(trail, IsSpace)
    requires (mark == "" || mark == "/" || mark == "v1/" || mark == "/v1/") && Slashes(before) && Slashes(after)
    ensures CleanPath(lead + (mark + before + p + after) + trail) == p
  {
    var inner := mark + before + p + after;
    Blanks('/');
    Blanks('v');
    InnerKept(mark, before, p, after);
    Trimmed(lead, inner, trail, IsSpace);
    Unmarked(mark, before, p, after);
  }

  lemma InnerKept(mark: string, before: string, p: string, after: string)
    requires p != "" && Plain(p) && !IsSpace('/') && !IsSpace('v')
    requires (mark == "" || mark == "/" || mark == "v1/" || mark == "/v1/") && Slashes(before) && Slashes(after)
    ensures Kept(mark + before + p + after, IsSpace)
  {
    var inner := mark + before + p + after;
    assert before != "" ==> before[0] in before;
    assert after != "" ==> after[|after| - 1] in after;
    assert inner[0] == if mark != "" then mark[0] else if before != "" then before[0] else p[0];
    assert inner[|inner| - 1] == if after != "" then after[|after| - 1] else p[|p| - 1];
  }

  lemma SlashPrefix(s: string)
    ensures TrimPrefix(s, "/") == if s != "" && s[0] == '/' then s[1..] else s
  {
    assert "/" <= s ==> s[0] == "/"[0];
    assert s != "" && s[0] == '/' ==> "/" <= s;
  }

  lemma VersionPrefix(s: string)
    ensures "v1/" <= s <==> |s| >= 3 && s[0] == 'v' && s[1] == '1' && s[2] == '/'
  {
    assert "v1/" <= s ==> s[0] == "v1/"[0] && s[1] == "v1/"[1] && s[2] == "v1/"[2];
  }

  lemma VersionStripped(rest: string)
    ensures TrimPrefix(TrimPrefix("/v1/" + rest, "/"), "v1/") == rest
    ensures TrimPrefix(TrimPrefix("v1/" + rest, "/"), "v1/") == rest
  {
    SlashPrefix("/v1/" + rest);
    SlashPrefix("v1/" + rest);
    VersionPrefix("v1/" + rest);
    assert ("/v1/" + rest)[1..] == "v1/" + rest && ("v1/" + rest)[3..] == rest;
  }

  lemma Unmarked(mark: string, before: string, p: string, after: string)
    requires p != "" && Plain(p) && (p == "v1" ==> after == "")
    requires (mark == "" || mark == "/" || mark == "v1/" || mark == "/v1/") && Slashes(before) && Slashes(after)
    ensures Trim(TrimPrefix(TrimPrefix(mark + before + p + after, "/"), "v1/"), c => c == '/') == p
  {
    var rest := before + p + after;
    assert mark + before + p + after == mark + rest;
    if mark == "/v1/" || mark == "v1/" {
      VersionStripped(rest);
      Trimmed(before, p, after, c => c == '/');
    } else if mark == "/" {
      SlashFirst("/" + before, p, after);
      assert "/" + before + p + after == "/" + rest;
    } else {
      SlashFirst(before, p, after);
      assert "" + rest == rest;
    }
  }

  /** Without a mark one slash at most is taken away first. */
  lemma SlashFirst(before: string, p: string, after: string)
    requires p != "" && Plain(p) && (p == "v1" ==> after == "") && Slashes(before) && Slashes(after)
    ensures Trim(TrimPrefix(TrimPrefix(before + p + after, "/"), "v1/"), c => c == '/') == p
  {
    var s := before + p + after;
    var less := if before != "" then before[1..] else before;
    SlashPrefix(s);
    assert before != "" ==> before[0] in before && s[0] == before[0] && s[1..] == less + p + after;
    assert before == "" ==> s[0] == p[0];
    assert forall c :: c in less ==> c in before;
    NoPrefix(less, p, after);
    Trimmed(less, p, after, c => c == '/');
  }

  lemma NoPrefix(before: string, p: string, after: string)
    requires p != "" && Plain(p) && (p == "v1" ==> after == "") && Slashes(before) && Slashes(after)
    ensures !("v1/" <= before + p + after)
  {
    var s := before + p + after;
    VersionPrefix(s);
    VersionPrefix(p);
    assert before != "" ==> before[0] in before && s[0] == before[0];
    assert before == "" ==> s == p + after;
    assert after != "" ==> after[0] in after;
    assert before == "" && |p| == 1 && after != "" ==> s[1] == after[0];
    assert |p| == 2 && p[0] == 'v' && p[1] == '1' ==> p == "v1";
  }

  lemma NoBlanksAround(s: string)
    requires s != "" && Kept(s, IsSpace)
    ensures CleanPath(s) == Trim(TrimPrefix(TrimPrefix(s, "/"), "v1/"), c => c == '/')
  {
    Trimmed("", s, "", IsSpace);
    assert "" + s + "" == s;
  }

  /** Paths that differ when written plainly are different, and a plain path names itself. */
  lemma PlainNamesItself(p: string)
    requires p != "" && Plain(p)
    ensures CleanPath(p) == p && CleanPath("/" + p) == p && CleanPath("/v1/" + p) == p && CleanPath("v1/" + p) == p
  {
    Named("", p);
    Named("/", p);
    Named("v1/", p);
    Named("/v1/", p);
    assert "" + p == p;
  }

  lemma Named(mark: string, p: string)
    requires p != "" && Plain(p) && (mark == "" || mark == "/" || mark == "v1/" || mark == "/v1/")
    ensures CleanPath(mark + p) == p
  {
    var inner := mark + "" + p + "";
    assert inner == mark + p;
    Blanks('/');
    Blanks('v');
    InnerKept(mark, "", p, "");
    NoBlanksAround(inner);
    Unmarked(mark, "", p, "");
  }

  lemma NoSlashesAround(s: string)
    requires s != "" && s[0] != '/' && s[|s| - 1] != '/'
    ensures Trim(s, c => c == '/') == s
  {
    Trimmed("", s, "", c => c == '/');
    assert "" + s + "" == s;
  }

  /** Cleaning is not idempotent: what was given as /v1/v1/p is kept as v1/p, and asking for that asks for p. */
  lemma CleanedTwice(p: string)
    requires p != "" && Plain(p)
    ensures CleanPath("/v1/" + ("v1/" + p)) == "v1/" + p && CleanPath("v1/" + p) == p
  {
    PlainNamesItself(p);
    var q := "v1/" + p;
    var s := "/v1/" + q;
    Blanks('/');
    assert q[0] == 'v' && q[|q| - 1] == p[|p| - 1];
    assert s[0] == '/' && s[|s| - 1] == q[|q| - 1];
    NoBlanksAround(s);
    VersionStripped(q);
    NoSlashesAround(q);
  }

  // ---- clusters

  /** Not empty, not a directory's own or parent name, and in one piece. */
  ghost predicate GoodCluster(id: string) {
    id != "" && id != "." && id != ".." && '/' !in id && '\\' !in id
  }

  /** A cluster ID loses its outer blanks and is otherwise kept, or refused. */
  lemma CleanedCluster(lead: string, id: string, trail: string)
    requires AllDropped(lead, IsSpace) && AllDropped(trail, IsSpace) && id != "" && Kept(id, IsSpace)
    ensures CleanCluster(lead + id + trail) == if GoodCluster(id) then Ok(id) else Err
  {
    Trimmed(lead, id, trail, IsSpace);
  }

  lemma BlankCluster(blank: string)
    requires AllDropped(blank, IsSpace)
    ensures CleanCluster(blank).Err?
  {
    LeftTrimmed(blank, "", IsSpace);
    assert blank + "" == blank;
  }

  // ---- places

  ghost predicate GoodSegment(s: string) {
    s != "" && s != "." && s != ".." && '\\' !in s
  }

  /** A path of these segments names itself under its cluster, and is refused exactly when the cluster or a
      segment is bad. */
  lemma CleanedPlace(cluster: string, segments: seq<string>)
    requires cluster != "" && Kept(cluster, IsSpace)
    requires segments != [] && (forall s :: s in segments ==> '/' !in s)
    requires Join(segments, '/') != "" && Plain(Join(segments, '/'))
    ensures CleanPlace(cluster, Join(segments, '/')) ==
            if GoodCluster(cluster) && forall s :: s in segments ==> GoodSegment(s)
            then Ok(Place(cluster, Join(segments, '/'))) else Err
  {
    CleanedCluster("", cluster, "");
    assert "" + cluster + "" == cluster;
    PlainNamesItself(Join(segments, '/'));
    SplitJoin(segments, '/');
    SegmentsJudged(segments);
  }

  lemma SegmentsJudged(segments: seq<string>)
    ensures (exists s :: s in segments && BadSegment(s)) <==> !forall s :: s in segments ==> GoodSegment(s)
  {
  }

  /** A path with nothing but blanks, slashes and the version prefix is refused. */
  lemma EmptyPlace(cluster: string, lead: string, mark: string, slashes: string)
    requires AllDropped(lead, IsSpace) && Slashes(slashes) && (mark == "" || mark == "/" || mark == "/v1/")
    ensures CleanPlace(cluster, lead + (mark + slashes)).Err?
  {
    var s := mark + slashes;
    Blanks('/');
    assert slashes != "" ==> slashes[0] in slashes && slashes[|slashes| - 1] in slashes;
    if s == "" {
      LeftTrimmed(lead, "", IsSpace);
      assert lead + "" == lead;
    } else {
      assert s[0] == '/' && s[|s| - 1] == '/';
      Trimmed(lead, s, "", IsSpace);
      assert lead + s + "" == lead + s;
    }
    OnlySlashes(mark, slashes);
  }

  lemma OnlySlashes(mark: string, slashes: string)
    requires Slashes(slashes) && (mark == "" || mark == "/" || mark == "/v1/")
    ensures Trim(TrimPrefix(TrimPrefix(mark + slashes, "/"), "v1/"), c => c == '/') == ""
  {
    var s := mark + slashes;
    assert slashes != "" ==> slashes[0] in slashes;
    var less := TrimPrefix(TrimPrefix(s, "/"), "v1/");
    if mark == "/v1/" {
      assert s[1..] == "v1/" + slashes && ("v1/" + slashes)[3..] == slashes;
    } else {
      assert forall c :: c in s ==> c == '/';
      var once := TrimPrefix(s, "/");
      assert forall c :: c in once ==> c in s;
      assert once != "" ==> once[0] in once;
      assert less == once;
    }
    LeftTrimmed(less, "", c => c == '/');
    assert less + "" == less;
  }

  // ---- at the store

  /** A cluster ID and a path that are taken as they are. */
  ghost predicate Accepted(cluster: string, path: string) {
    && GoodCluster(cluster) && Kept(cluster, IsSpace) && path != "" && Plain(path)
    && forall s :: s in Split(path, '/') ==> GoodSegment(s)
  }

  lemma AcceptedPlace(cluster: string, path: string)
    requires Accepted(cluster, path)
    ensures CleanPlace(cluster, path) == Ok(Place(cluster, path))
  {
    JoinSplit(path, '/');
    CleanedPlace(cluster, Split(path, '/'));
  }

  /** A write under one cluster ID and path, between two reads under another: the reads agree. Under the same
      ones the second read gives what was written. */
  method WriteBetweenReads(store: FileStore, cluster: string, path: string, values: Values, expected: Option<int>,
                           otherCluster: string, otherPath: string, first: World, writing: World, second: World)
    returns (before: Result<Option<Values>>, written: Result<bool>, after: Result<Option<Values>>)
    requires store.Valid() && Accepted(cluster, path) && Accepted(otherCluster, otherPath)
    modifies store
    ensures store.Valid()
    ensures before.Ok? && after.Ok? && (cluster, path) != (otherCluster, otherPath) ==> before == after
    ensures written == Ok(true) && after.Ok? && (cluster, path) == (otherCluster, otherPath) ==>
              after == Ok(Some(values))
    ensures written == Ok(false) && before.Ok? && after.Ok? ==> before == after
  {
    AcceptedPlace(cluster, path);
    AcceptedPlace(otherCluster, otherPath);
    before := store.GetSecret(otherCluster, otherPath, first);
    written := store.SetSecret(cluster, path, values, expected, writing);
    after := store.GetSecret(otherCluster, otherPath, second);
  }
}
