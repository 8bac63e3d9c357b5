/** JSON values, the merge patch algorithm of section 2 of RFC 7396, and the patch that flips components. */
module MergePatch {
  import opened Results
  import opened ComponentGraph

  datatype Json =
    | Null
    | Bool(b: bool)
    | Num(n: real)
    | Str(s: string)
    | Arr(items: seq<Json>)
    | Obj(fields: map<string, Json>)

  function Fields(j: Json): map<string, Json> {
    if j.Obj? then j.fields else map[]
  }

  function Merge(target: Json, patch: Json): Json
    decreases patch
  {
    if patch.Obj? then
      var t := Fields(target);
      Obj(map k | k in t.Keys + patch.fields.Keys && !(k in patch.fields && patch.fields[k].Null?) ::
        if k in patch.fields then Merge(if k in t then t[k] else Null, patch.fields[k]) else t[k])
    else patch
  }

  function Lookup(j: Json, path: seq<string>): Option<Json>
    decreases |path|
  {
    if path == [] then Some(j)
    else if j.Obj? && path[0] in j.fields then Lookup(j.fields[path[0]], path[1..])
    else None
  }

  /** The patch leaves the path: it has an object there without the next key. */
  ghost predicate Leaves(patch: Json, path: seq<string>)
    decreases |path|
  {
    path != [] && patch.Obj? && (path[0] in patch.fields ==> Leaves(patch.fields[path[0]], path[1..]))
  }

  /** What the patch does not mention stays as it was, present or absent. */
  lemma {:induction false} MergeKeeps(target: Json, patch: Json, path: seq<string>)
    requires Leaves(patch, path)
    ensures Lookup(Merge(target, patch), path) == Lookup(target, path)
    decreases |path|
  {
    var key := path[0];
    if key in patch.fields {
      var below := if key in Fields(target) then Fields(target)[key] else Null;
      MergeKeeps(below, patch.fields[key], path[1..]);
      assert path[1..] != [];
    }
  }

  /** What the patch sets to anything but an object or null is there afterwards. */
  lemma {:induction false} MergeSets(target: Json, patch: Json, path: seq<string>)
    requires Lookup(patch, path).Some? && !Lookup(patch, path).value.Obj? && !Lookup(patch, path).value.Null?
    ensures Lookup(Merge(target, patch), path) == Lookup(patch, path)
    decreases |path|
  {
    if path != [] {
      var key := path[0];
      MergeSets(if key in Fields(target) then Fields(target)[key] else Null, patch.fields[key], path[1..]);
      assert !patch.fields[key].Null?;
    }
  }

  /** What the patch sets to null is gone afterwards. */
  lemma {:induction false} MergeRemoves(target: Json, patch: Json, path: seq<string>)
    requires path != [] && Lookup(patch, path) == Some(Null)
    ensures Lookup(Merge(target, patch), path) == None
    decreases |path|
  {
    var key := path[0];
    if |path| > 1 {
      MergeRemoves(if key in Fields(target) then Fields(target)[key] else Null, patch.fields[key], path[1..]);
    } else {
      assert path[1..] == [];
    }
  }

  /** Above what the patch sets there are objects afterwards. */
  lemma {:induction false} MergeMakesObjects(target: Json, patch: Json, path: seq<string>)
    requires Lookup(patch, path).Some? && Lookup(patch, path).value.Obj?
    ensures Lookup(Merge(target, patch), path).Some? && Lookup(Merge(target, patch), path).value.Obj?
    decreases |path|
  {
    if path != [] {
      var key := path[0];
      MergeMakesObjects(if key in Fields(target) then Fields(target)[key] else Null, patch.fields[key], path[1..]);
      assert !patch.fields[key].Null?;
    }
  }

  // ---- the patch that flips components

  const SPEC := "spec"
  const VALUES := "values"
  const PLATFORM := "platform"
  const COMPONENTS := "components"
  const APPS := "apps"
  const CRDS := "crds"
  const ENABLED := "enabled"

  const PREFIX := [SPEC, VALUES, PLATFORM, COMPONENTS]

  function Flips(names: seq<string>, enabled: bool): map<string, Json> {
    map n | n in names :: Obj(map[ENABLED := Bool(enabled)])
  }

  function ComponentsPatch(apps: seq<string>, crds: seq<string>, enabled: bool): map<string, Json> {
    (if apps == [] then map[] else map[APPS := Obj(Flips(apps, enabled))])
    + (if crds == [] then map[] else map[CRDS := Obj(Flips(crds, enabled))])
  }

  /** inner below one object per key. */
  function Nest(keys: seq<string>, inner: Json): Json {
    if keys == [] then inner else Obj(map[keys[0] := Nest(keys[1..], inner)])
  }

  function EnabledPatch(apps: seq<string>, crds: seq<string>, enabled: bool): Json {
    Nest(PREFIX, Obj(ComponentsPatch(apps, crds, enabled)))
  }

  /** The nested maps are filled name by name. */
  method BuildEnabledPatch(apps: seq<string>, crds: seq<string>, enabled: bool) returns (r: Json)
    ensures r == EnabledPatch(apps, crds, enabled)
  {
    var componentsPatch: map<string, Json> := map[];
    if |apps| > 0 {
      var appsPatch := FlipAll(apps, enabled);
      componentsPatch := componentsPatch[APPS := Obj(appsPatch)];
    }
    if |crds| > 0 {
      var crdsPatch := FlipAll(crds, enabled);
      componentsPatch := componentsPatch[CRDS := Obj(crdsPatch)];
    }
    assert componentsPatch == ComponentsPatch(apps, crds, enabled);
    r := Nest(PREFIX, Obj(componentsPatch));
  }

  method FlipAll(names: seq<string>, enabled: bool) returns (m: map<string, Json>)
    ensures m == Flips(names, enabled)
  {
    m := map[];
    for i := 0 to |names|
      invariant m == Flips(names[..i], enabled)
    {
      assert names[..i + 1] == names[..i] + [names[i]];
      m := m[names[i] := Obj(map[ENABLED := Bool(enabled)])];
    }
    assert names[..|names|] == names;
  }

  function EnabledPath(kind: string, n: string): seq<string> {
    PREFIX + [kind, n, ENABLED]
  }

  ghost predicate Flipped(apps: seq<string>, crds: seq<string>, path: seq<string>) {
    exists n :: (n in apps && path == EnabledPath(APPS, n)) || (n in crds && path == EnabledPath(CRDS, n))
  }

  lemma {:induction false} NestLookup(keys: seq<string>, inner: Json, rest: seq<string>)
    ensures Lookup(Nest(keys, inner), keys + rest) == Lookup(inner, rest)
  {
    if keys == [] {
      assert keys + rest == rest;
    } else {
      assert (keys + rest)[1..] == keys[1..] + rest;
      NestLookup(keys[1..], inner, rest);
    }
  }

  lemma {:induction false} NestLeaves(keys: seq<string>, inner: Json, path: seq<string>)
    requires !(path <= keys)
    requires keys <= path ==> Leaves(inner, path[|keys|..])
    ensures Leaves(Nest(keys, inner), path)
  {
    if keys == [] {
      assert path[0..] == path;
    } else if path[0] == keys[0] {
      assert path[1..] <= keys[1..] ==> path <= keys;
      assert keys[1..] <= path[1..] ==> keys <= path && path[1..][|keys| - 1..] == path[|keys|..];
      NestLeaves(keys[1..], inner, path[1..]);
    }
  }

  lemma FlipLookup(apps: seq<string>, crds: seq<string>, enabled: bool, kind: string, n: string)
    requires (kind == APPS && n in apps) || (kind == CRDS && n in crds)
    ensures Lookup(EnabledPatch(apps, crds, enabled), EnabledPath(kind, n)) == Some(Bool(enabled))
  {
    var inner := Obj(ComponentsPatch(apps, crds, enabled));
    var rest := [kind, n, ENABLED];
    NestLookup(PREFIX, inner, rest);
    assert rest[1..] == [n, ENABLED] && [n, ENABLED][1..] == [ENABLED] && [ENABLED][1..] == [];
    var flips := Flips(if kind == APPS then apps else crds, enabled);
    assert inner.fields[kind] == Obj(flips);
    assert Lookup(flips[n], [ENABLED]) == Some(Bool(enabled));
    assert Lookup(Obj(flips), [n, ENABLED]) == Lookup(flips[n], [ENABLED]);
  }

  /** After the patch exactly the listed components carry the flag. */
  lemma PatchFlips(doc: Json, apps: seq<string>, crds: seq<string>, enabled: bool, path: seq<string>)
    requires Flipped(apps, crds, path)
    ensures Lookup(Merge(doc, EnabledPatch(apps, crds, enabled)), path) == Some(Bool(enabled))
  {
    var n :| (n in apps && path == EnabledPath(APPS, n)) || (n in crds && path == EnabledPath(CRDS, n));
    var kind := if n in apps && path == EnabledPath(APPS, n) then APPS else CRDS;
    FlipLookup(apps, crds, enabled, kind, n);
    MergeSets(doc, EnabledPatch(apps, crds, enabled), path);
  }

  /** The path neither lies on the way to a flipped flag nor below one. */
  ghost predicate Apart(apps: seq<string>, crds: seq<string>, path: seq<string>) {
    forall target :: Flipped(apps, crds, target) ==> !(path <= target) && !(target <= path)
  }

  lemma FlipsLeave(names: seq<string>, enabled: bool, rest: seq<string>)
    requires rest != []
    requires rest[0] in names ==> |rest| > 1 && rest[1] != ENABLED
    ensures Leaves(Obj(Flips(names, enabled)), rest)
  {
  }

  /** Every other path of the document is unchanged, whatever the document. */
  lemma PatchKeepsOthers(doc: Json, apps: seq<string>, crds: seq<string>, enabled: bool, path: seq<string>)
    requires (apps != [] || crds != []) && Apart(apps, crds, path)
    ensures Lookup(Merge(doc, EnabledPatch(apps, crds, enabled)), path) == Lookup(doc, path)
  {
    ApartLeaves(apps, crds, enabled, path);
    MergeKeeps(doc, EnabledPatch(apps, crds, enabled), path);
  }

  lemma ApartLeaves(apps: seq<string>, crds: seq<string>, enabled: bool, path: seq<string>)
    requires (apps != [] || crds != []) && Apart(apps, crds, path)
    ensures Leaves(EnabledPatch(apps, crds, enabled), path)
  {
    var kind, first := if apps != [] then APPS else CRDS, if apps != [] then apps[0] else crds[0];
    assert Flipped(apps, crds, EnabledPath(kind, first));
    assert path <= PREFIX ==> path <= EnabledPath(kind, first);
    if PREFIX <= path {
      var rest := path[4..];
      assert path == PREFIX + rest;
      ApartBelow(apps, crds, enabled, rest);
    }
    NestLeaves(PREFIX, Obj(ComponentsPatch(apps, crds, enabled)), path);
  }

  lemma ApartBelow(apps: seq<string>, crds: seq<string>, enabled: bool, rest: seq<string>)
    requires (apps != [] || crds != []) && Apart(apps, crds, PREFIX + rest)
    ensures Leaves(Obj(ComponentsPatch(apps, crds, enabled)), rest)
  {
    var kind, first := if apps != [] then APPS else CRDS, if apps != [] then apps[0] else crds[0];
    assert Flipped(apps, crds, EnabledPath(kind, first));
    assert rest == [] ==> PREFIX + rest <= EnabledPath(kind, first);
    var c := ComponentsPatch(apps, crds, enabled);
    if rest[0] in c {
      var names := if rest[0] == APPS then apps else crds;
      assert c[rest[0]] == Obj(Flips(names, enabled)) && names != [] && (rest[0] == APPS || rest[0] == CRDS);
      NamesApart(apps, crds, rest, names[0]);
      if |rest| > 1 && rest[1] in names {
        NamesApart(apps, crds, rest, rest[1]);
      }
      FlipsLeave(names, enabled, rest[1..]);
    }
  }

  lemma NamesApart(apps: seq<string>, crds: seq<string>, rest: seq<string>, n: string)
    requires Apart(apps, crds, PREFIX + rest) && rest != []
    requires (rest[0] == APPS && n in apps) || (rest[0] == CRDS && n in crds)
    ensures |rest| > 1
    ensures rest[1] == n ==> |rest| > 2 && rest[2] != ENABLED
  {
    var target := EnabledPath(rest[0], n);
    assert Flipped(apps, crds, target);
    assert |rest| == 1 ==> PREFIX + rest <= target;
    if |rest| > 1 && rest[1] == n {
      assert |rest| == 2 ==> PREFIX + rest <= target;
      assert |rest| > 2 && rest[2] == ENABLED ==> target <= PREFIX + rest;
    }
  }

  // ---- what the components read back

  function IsTrue(fields: map<string, Json>, key: string): bool {
    key in fields && fields[key] == Bool(true)
  }

  function Texts(items: seq<Json>): seq<string> {
    if items == [] then [] else (if items[0].Str? then [items[0].s] else [""]) + Texts(items[1..])
  }

  function EntryOf(j: Json): Entry {
    var f := Fields(j);
    Entry(IsTrue(f, ENABLED), IsTrue(f, "core"),
          if "dependsOn" in f && f["dependsOn"].Arr? then Texts(f["dependsOn"].items) else [])
  }

  function Entries(doc: Json, kind: string): map<string, Entry> {
    var at := Lookup(doc, PREFIX + [kind]);
    EntriesOf(if at.Some? then Fields(at.value) else map[])
  }

  function ConfigOf(doc: Json): Config {
    Config(Entries(doc, APPS), Entries(doc, CRDS))
  }

  lemma {:induction false} LookupMerge(target: Json, patch: Json, path: seq<string>)
    requires Lookup(patch, path).Some? && Lookup(patch, path).value.Obj?
    ensures var t := Lookup(target, path);
            Lookup(Merge(target, patch), path) ==
            Some(Merge(if t.Some? then t.value else Null, Lookup(patch, path).value))
    decreases |path|
  {
    if path != [] {
      var key := path[0];
      LookupMerge(if key in Fields(target) then Fields(target)[key] else Null, patch.fields[key], path[1..]);
      assert !patch.fields[key].Null?;
      assert path[1..] != [] ==> Lookup(Null, path[1..]).None?;
    }
  }

  lemma FlipEntry(j: Json, enabled: bool)
    ensures EntryOf(Merge(j, Obj(map[ENABLED := Bool(enabled)]))) == EntryOf(j).(enabled := enabled)
  {
    var f, patch := Fields(j), Obj(map[ENABLED := Bool(enabled)]);
    var m := Fields(Merge(j, patch));
    assert m.Keys == f.Keys + {ENABLED};
    forall k | k in m
      ensures m[k] == if k == ENABLED then Bool(enabled) else f[k]
    {
      MergeLeaf(if k in f then f[k] else Null, Bool(enabled));
    }
  }

  lemma MergeLeaf(target: Json, patch: Json)
    requires !patch.Obj?
    ensures Merge(target, patch) == patch
  {
  }

  /** Reading the components after the patch gives the components before it with the listed ones
      flipped. */
  lemma PatchThenRead(doc: Json, apps: seq<string>, crds: seq<string>, enabled: bool)
    ensures ConfigOf(Merge(doc, EnabledPatch(apps, crds, enabled))) ==
            Config(Enable(ConfigOf(doc).apps, apps, enabled), Enable(ConfigOf(doc).crds, crds, enabled))
  {
    PatchThenReadKind(doc, apps, crds, enabled, APPS);
    PatchThenReadKind(doc, apps, crds, enabled, CRDS);
  }

  lemma PatchThenReadKind(doc: Json, apps: seq<string>, crds: seq<string>, enabled: bool, kind: string)
    requires kind == APPS || kind == CRDS
    ensures Entries(Merge(doc, EnabledPatch(apps, crds, enabled)), kind) ==
            Enable(Entries(doc, kind), if kind == APPS then apps else crds, enabled)
  {
    var names := if kind == APPS then apps else crds;
    var patch := EnabledPatch(apps, crds, enabled);
    var inner := Obj(ComponentsPatch(apps, crds, enabled));
    var path := PREFIX + [kind];
    NestLookup(PREFIX, inner, [kind]);
    assert [kind][1..] == [];
    if names == [] {
      assert Lookup(inner, [kind]).None? && Leaves(inner, [kind]);
      assert path[4..] == [kind];
      NestLeaves(PREFIX, inner, path);
      MergeKeeps(doc, patch, path);
    } else {
      assert inner.fields[kind] == Obj(Flips(names, enabled));
      LookupMerge(doc, patch, path);
      FlipFields(BelowOrNull(doc, path), names, enabled);
    }
  }

  ghost function BelowOrNull(doc: Json, path: seq<string>): Json {
    var at := Lookup(doc, path);
    if at.Some? then at.value else Null
  }

  function EntriesOf(f: map<string, Json>): map<string, Entry> {
    map n | n in f :: EntryOf(f[n])
  }

  lemma FlipKeys(j: Json, names: seq<string>, enabled: bool)
    ensures Fields(Merge(j, Obj(Flips(names, enabled)))).Keys == Fields(j).Keys + (set x | x in names)
  {
  }

  ghost function EntryAfter(f: map<string, Json>, names: seq<string>, enabled: bool, n: string): Entry
    requires n in f || n in names
  {
    var before := if n in f then EntryOf(f[n]) else Entry(false, false, []);
    if n in names then before.(enabled := enabled) else before
  }

  lemma FlipField(j: Json, names: seq<string>, enabled: bool, n: string)
    requires n in Fields(Merge(j, Obj(Flips(names, enabled))))
    ensures n in Fields(j) || n in names
    ensures EntryOf(Fields(Merge(j, Obj(Flips(names, enabled))))[n]) == EntryAfter(Fields(j), names, enabled, n)
  {
    if n in names {
      FlipEntry(if n in Fields(j) then Fields(j)[n] else Null, enabled);
    }
  }

  lemma EntriesAfter(f: map<string, Json>, m: map<string, Json>, names: seq<string>, enabled: bool)
    requires m.Keys == f.Keys + (set x | x in names)
    requires forall n :: n in m ==> EntryOf(m[n]) == EntryAfter(f, names, enabled, n)
    ensures EntriesOf(m) == Enable(EntriesOf(f), names, enabled)
  {
    assert EntriesOf(m).Keys == Enable(EntriesOf(f), names, enabled).Keys;
  }

  /** Every entry of one kind after the patch. */
  lemma FlipFields(j: Json, names: seq<string>, enabled: bool)
    ensures EntriesOf(Fields(Merge(j, Obj(Flips(names, enabled))))) == Enable(EntriesOf(Fields(j)), names, enabled)
  {
    var m := Fields(Merge(j, Obj(Flips(names, enabled))));
    FlipKeys(j, names, enabled);
    forall n | n in m
      ensures EntryOf(m[n]) == EntryAfter(Fields(j), names, enabled, n)
    {
      FlipField(j, names, enabled, n);
    }
    EntriesAfter(Fields(j), m, names, enabled);
  }

  // ---- reading through the chart's defaults

  predicate NullFree(j: Json) {
    !j.Null? && (j.Obj? ==> forall k | k in j.fields :: NullFree(j.fields[k]))
  }

  /** Where the patch has an object, the release has an object too, or nothing. */
  predicate Carries(release: Json, patch: Json)
    decreases patch
  {
    patch.Obj? ==>
      release.Obj? && forall k | k in patch.fields && k in release.fields :: Carries(release.fields[k], patch.fields[k])
  }

  lemma {:induction false} MergeIntoNothing(patch: Json)
    requires NullFree(patch)
    ensures Merge(Null, patch) == patch
    decreases patch
  {
    if patch.Obj? {
      forall k | k in patch.fields
        ensures Merge(Null, patch.fields[k]) == patch.fields[k]
      {
        MergeIntoNothing(patch.fields[k]);
      }
      assert Merge(Null, patch).fields == patch.fields;
    }
  }

  function At(fields: map<string, Json>, key: string): Json {
    if key in fields then fields[key] else Null
  }

  ghost function Get(j: Json, key: string): Option<Json> {
    if key in Fields(j) then Some(Fields(j)[key]) else None
  }

  lemma MergeGet(target: Json, patch: Json, key: string)
    requires patch.Obj?
    ensures Get(Merge(target, patch), key) ==
            if key !in patch.fields then Get(target, key)
            else if patch.fields[key].Null? then None
            else Some(Merge(At(Fields(target), key), patch.fields[key]))
  {
  }

  lemma SameFields(a: Json, b: Json)
    requires a.Obj? && b.Obj? && forall k :: Get(a, k) == Get(b, k)
    ensures a == b
  {
    assert forall k :: k in a.fields <==> Get(a, k).Some?;
    assert forall k :: k in b.fields <==> Get(b, k).Some?;
    forall k | k in a.fields
      ensures a.fields[k] == b.fields[k]
    {
      assert Get(a, k) == Get(b, k);
    }
    assert a.fields == b.fields;
  }

  /** Patching the overrides and laying them over the defaults is laying them over first and patching then. */
  lemma {:induction false} PatchBelow(defaults: Json, release: Json, patch: Json)
    requires NullFree(patch) && Carries(release, patch)
    ensures Merge(defaults, Merge(release, patch)) == Merge(Merge(defaults, release), patch)
    decreases patch, 1
  {
    if patch.Obj? {
      var a, b := Merge(defaults, Merge(release, patch)), Merge(Merge(defaults, release), patch);
      forall k
        ensures Get(a, k) == Get(b, k)
      {
        PatchBelowAt(defaults, release, patch, k);
      }
      SameFields(a, b);
    }
  }

  lemma {:induction false} PatchBelowAt(defaults: Json, release: Json, patch: Json, k: string)
    requires patch.Obj? && NullFree(patch) && Carries(release, patch)
    ensures Get(Merge(defaults, Merge(release, patch)), k) == Get(Merge(Merge(defaults, release), patch), k)
    decreases patch, 0
  {
    MergeGet(release, patch, k);
    MergeGet(defaults, Merge(release, patch), k);
    MergeGet(defaults, release, k);
    MergeGet(Merge(defaults, release), patch, k);
    if k in patch.fields {
      if k !in release.fields {
        MergeIntoNothing(patch.fields[k]);
      } else if patch.fields[k].Obj? {
        PatchBelow(At(Fields(defaults), k), release.fields[k], patch.fields[k]);
      }
    }
  }

  lemma {:induction false} NestNullFree(keys: seq<string>, inner: Json)
    requires NullFree(inner)
    ensures NullFree(Nest(keys, inner))
  {
    if keys != [] {
      NestNullFree(keys[1..], inner);
    }
  }

  lemma FlipsNullFree(apps: seq<string>, crds: seq<string>, enabled: bool)
    ensures NullFree(Obj(ComponentsPatch(apps, crds, enabled)))
  {
    forall names: seq<string>
      ensures NullFree(Obj(Flips(names, enabled)))
    {
      assert forall n :: n in names ==> NullFree(Obj(map[ENABLED := Bool(enabled)]));
    }
    var c := ComponentsPatch(apps, crds, enabled);
    assert forall k :: k in c ==> c[k] == Obj(Flips(apps, enabled)) || c[k] == Obj(Flips(crds, enabled));
  }

  /** The same through the chart's defaults, which Helm merges below the release's values: the components
      read after the patch are those read before with the listed ones flipped, as long as the release does
      not override an object on the way to a flag by something else. */
  lemma PatchThenReadOverDefaults(defaults: Json, release: Json, apps: seq<string>, crds: seq<string>, enabled: bool)
    requires Carries(release, EnabledPatch(apps, crds, enabled))
    ensures var before := ConfigOf(Merge(defaults, release));
            ConfigOf(Merge(defaults, Merge(release, EnabledPatch(apps, crds, enabled)))) ==
            Config(Enable(before.apps, apps, enabled), Enable(before.crds, crds, enabled))
  {
    FlipsNullFree(apps, crds, enabled);
    NestNullFree(PREFIX, Obj(ComponentsPatch(apps, crds, enabled)));
    PatchBelow(defaults, release, EnabledPatch(apps, crds, enabled));
    PatchThenRead(Merge(defaults, release), apps, crds, enabled);
  }
}
