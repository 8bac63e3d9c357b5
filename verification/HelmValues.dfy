/** The merged Helm values that the commands read: when they decode, and what a patch of the overrides does to
    them. */
module HelmValues {
  import opened Results
  import opened ComponentGraph
  import opened MergePatch

  // ---- decoding

  predicate Flag(fields: map<string, Json>, key: string) {
    key in fields ==> fields[key].Null? || fields[key].Bool?
  }

  predicate ReadableEntry(j: Json) {
    || j.Null?
    || (j.Obj? && Flag(j.fields, ENABLED) && Flag(j.fields, "core")
        && ("namespace" in j.fields ==> j.fields["namespace"].Null? || j.fields["namespace"].Str?)
        && ("dependsOn" in j.fields ==>
              var needs := j.fields["dependsOn"];
              needs.Null? || (needs.Arr? && forall d | d in needs.items :: d.Null? || d.Str?)))
  }

  predicate ReadableKind(components: Json, kind: string) {
    var entries := At(Fields(components), kind);
    entries.Null? || (entries.Obj? && forall n | n in entries.fields :: ReadableEntry(entries.fields[n]))
  }

  /** The values hold the components section, and it has the types that the decoder expects. */
  predicate Readable(values: Json) {
    var components := Lookup(values, PREFIX);
    && components.Some? && components.value.Obj?
    && ReadableKind(components.value, APPS) && ReadableKind(components.value, CRDS)
  }

  ghost predicate AllKnown(c: Config, apps: seq<string>, crds: seq<string>) {
    (forall n :: n in apps ==> n in c.apps) && (forall n :: n in crds ==> n in c.crds)
  }

  // ---- readable values carry every patch of known components

  /** An object in the merged values comes from an object in the overrides, or the overrides are silent. */
  lemma {:induction false} OverridesObjects(defaults: Json, release: Json, path: seq<string>)
    requires var m := Lookup(Merge(defaults, release), path); m.Some? && m.value.Obj?
    ensures Lookup(release, path).Some? ==> Lookup(release, path).value.Obj?
    decreases |path|
  {
    if path != [] && release.Obj? && path[0] in release.fields {
      MergeGet(defaults, release, path[0]);
      OverridesObjects(At(Fields(defaults), path[0]), release.fields[path[0]], path[1..]);
    }
  }

  lemma {:induction false} CarriesNest(defaults: Json, release: Json, keys: seq<string>, inner: Json)
    requires inner.Obj?
    requires var m := Lookup(Merge(defaults, release), keys); m.Some? && m.value.Obj?
    requires Lookup(release, keys).Some? ==> Carries(Lookup(release, keys).value, inner)
    ensures Carries(release, Nest(keys, inner))
    decreases |keys|
  {
    if keys != [] {
      assert release.Obj?;
      if keys[0] in release.fields {
        MergeGet(defaults, release, keys[0]);
        CarriesNest(At(Fields(defaults), keys[0]), release.fields[keys[0]], keys[1..], inner);
      }
    }
  }

  /** One kind of components: known entries are objects in the overrides, or absent there. */
  lemma CarriesFlips(defaults: Json, release: Json, kind: string, names: seq<string>, enabled: bool)
    requires release.Obj? && kind in release.fields && names != []
    requires ReadableKind(Merge(defaults, release), kind)
    requires forall n :: n in names ==> n in Fields(At(Fields(Merge(defaults, release)), kind))
    ensures Carries(release.fields[kind], Obj(Flips(names, enabled)))
  {
    var below, over := At(Fields(defaults), kind), release.fields[kind];
    MergeGet(defaults, release, kind);
    assert names[0] in names;
    assert over.Obj?;
    forall n | n in names && n in over.fields
      ensures Carries(over.fields[n], Flips(names, enabled)[n])
    {
      MergeGet(below, over, n);
      assert n in Fields(Merge(below, over));
    }
  }

  ghost predicate KnownIn(components: Json, kind: string, names: seq<string>) {
    forall n :: n in names ==> n in Fields(At(Fields(components), kind))
  }

  lemma CarriesComponents(defaults: Json, release: Json, apps: seq<string>, crds: seq<string>, enabled: bool)
    requires release.Obj?
    requires var m := Merge(defaults, release);
             ReadableKind(m, APPS) && ReadableKind(m, CRDS) && KnownIn(m, APPS, apps) && KnownIn(m, CRDS, crds)
    ensures Carries(release, Obj(ComponentsPatch(apps, crds, enabled)))
  {
    if apps != [] && APPS in release.fields {
      CarriesFlips(defaults, release, APPS, apps, enabled);
    }
    if crds != [] && CRDS in release.fields {
      CarriesFlips(defaults, release, CRDS, crds, enabled);
    }
  }

  /** What was read as a component can be patched: nothing in the overrides stands in the way. */
  lemma ReadableCarries(defaults: Json, release: Json, apps: seq<string>, crds: seq<string>, enabled: bool)
    requires Readable(Merge(defaults, release)) && AllKnown(ConfigOf(Merge(defaults, release)), apps, crds)
    ensures Carries(release, EnabledPatch(apps, crds, enabled))
  {
    var inner := Obj(ComponentsPatch(apps, crds, enabled));
    OverridesObjects(defaults, release, PREFIX);
    if Lookup(release, PREFIX).Some? {
      var over, below := Lookup(release, PREFIX).value, BelowOrNull(defaults, PREFIX);
      LookupMerge(defaults, release, PREFIX);
      KnownBelow(Merge(defaults, release), apps, crds);
      CarriesComponents(below, over, apps, crds, enabled);
    }
    CarriesNest(defaults, release, PREFIX, inner);
  }

  lemma KnownBelow(values: Json, apps: seq<string>, crds: seq<string>)
    requires Lookup(values, PREFIX).Some? && AllKnown(ConfigOf(values), apps, crds)
    ensures var components := Lookup(values, PREFIX).value;
            KnownIn(components, APPS, apps) && KnownIn(components, CRDS, crds)
  {
    LookupKind(values, APPS);
    LookupKind(values, CRDS);
  }

  lemma {:induction false} LookupNext(j: Json, path: seq<string>, key: string)
    requires Lookup(j, path).Some?
    ensures Lookup(j, path + [key]) == Get(Lookup(j, path).value, key)
    decreases |path|
  {
    if path == [] {
      assert path + [key] == [key] && [key][1..] == [];
    } else {
      assert (path + [key])[1..] == path[1..] + [key];
      LookupNext(j.fields[path[0]], path[1..], key);
    }
  }

  lemma LookupKind(values: Json, kind: string)
    requires Lookup(values, PREFIX).Some?
    ensures Entries(values, kind) == EntriesOf(Fields(At(Fields(Lookup(values, PREFIX).value), kind)))
  {
    LookupNext(values, PREFIX, kind);
  }

  // ---- and stay readable

  lemma FlipReadable(j: Json, enabled: bool)
    requires ReadableEntry(j)
    ensures ReadableEntry(Merge(j, Obj(map[ENABLED := Bool(enabled)])))
  {
    var patch := Obj(map[ENABLED := Bool(enabled)]);
    MergeGet(j, patch, ENABLED);
    MergeGet(j, patch, "core");
    MergeGet(j, patch, "namespace");
    MergeGet(j, patch, "dependsOn");
    MergeLeaf(At(Fields(j), ENABLED), Bool(enabled));
  }

  lemma FlipsReadable(components: Json, patch: Json, kind: string, names: seq<string>, enabled: bool)
    requires patch.Obj? && ReadableKind(components, kind)
    requires kind in patch.fields ==> patch.fields[kind] == Obj(Flips(names, enabled))
    ensures ReadableKind(Merge(components, patch), kind)
  {
    var below := At(Fields(components), kind);
    MergeGet(components, patch, kind);
    if kind in patch.fields {
      var flips := Obj(Flips(names, enabled));
      var m := Merge(below, flips);
      forall n | n in m.fields
        ensures ReadableEntry(m.fields[n])
      {
        MergeGet(below, flips, n);
        FlipReadable(At(Fields(below), n), enabled);
      }
    }
  }

  lemma StaysReadable(values: Json, apps: seq<string>, crds: seq<string>, enabled: bool)
    requires Readable(values)
    ensures Readable(Merge(values, EnabledPatch(apps, crds, enabled)))
  {
    var inner := Obj(ComponentsPatch(apps, crds, enabled));
    assert PREFIX + [] == PREFIX;
    NestLookup(PREFIX, inner, []);
    LookupMerge(values, EnabledPatch(apps, crds, enabled), PREFIX);
    FlipsReadable(Lookup(values, PREFIX).value, inner, APPS, apps, enabled);
    FlipsReadable(Lookup(values, PREFIX).value, inner, CRDS, crds, enabled);
  }

  /** Flipping components that were read, in the overrides: the merged values decode again, to the same
      components with those flipped. */
  lemma FlippedThroughDefaults(defaults: Json, release: Json, apps: seq<string>, crds: seq<string>, enabled: bool)
    requires Readable(Merge(defaults, release)) && AllKnown(ConfigOf(Merge(defaults, release)), apps, crds)
    ensures var before := ConfigOf(Merge(defaults, release));
            var after := Merge(defaults, Merge(release, EnabledPatch(apps, crds, enabled)));
            && Readable(after)
            && ConfigOf(after) == Config(Enable(before.apps, apps, enabled), Enable(before.crds, crds, enabled))
  {
    ReadableCarries(defaults, release, apps, crds, enabled);
    PatchThenReadOverDefaults(defaults, release, apps, crds, enabled);
    FlipsNullFree(apps, crds, enabled);
    NestNullFree(PREFIX, Obj(ComponentsPatch(apps, crds, enabled)));
    PatchBelow(defaults, release, EnabledPatch(apps, crds, enabled));
    StaysReadable(Merge(defaults, release), apps, crds, enabled);
  }
}
