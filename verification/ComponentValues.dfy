/** What the components are that a document of merged values shows, and what an install makes of it. */
module ComponentValues {
  import opened Results
  import opened ComponentGraph
  import opened InstallRuns
  import opened InstallCommands
  import MP = MergePatch
  import HelmValues

  // ---- reading

  function At(values: MP.Json, kind: string, n: string, field: string): Option<MP.Json> {
    MP.Lookup(values, ["spec", "values", "platform", "components", kind, n, field])
  }

  function Component(values: MP.Json, kind: string, n: string): Option<MP.Json> {
    MP.Lookup(values, ["spec", "values", "platform", "components", kind, n])
  }

  ghost predicate IsOn(values: MP.Json, kind: string, n: string, field: string) {
    At(values, kind, n, field) == Some(MP.Bool(true))
  }

  /** The texts of an array in order, the empty text for a null; no texts when there is no array. */
  ghost predicate Lists(listed: Option<MP.Json>, names: seq<string>) {
    if listed.Some? && listed.value.Arr? then
      && |names| == |listed.value.items|
      && forall i :: 0 <= i < |names| ==>
           names[i] == if listed.value.items[i].Str? then listed.value.items[i].s else ""
    else names == []
  }

  /** The entries are the components of one kind, as they stand in the document. */
  ghost predicate Shows(values: MP.Json, kind: string, entries: map<string, Entry>) {
    && (forall n :: n in entries <==> Component(values, kind, n).Some?)
    && forall n :: n in entries ==>
         && (entries[n].enabled <==> IsOn(values, kind, n, "enabled"))
         && (entries[n].core <==> IsOn(values, kind, n, "core"))
         && Lists(At(values, kind, n, "dependsOn"), entries[n].dependsOn)
  }

  lemma {:induction false} TextsInOrder(items: seq<MP.Json>)
    ensures |MP.Texts(items)| == |items|
    ensures forall i :: 0 <= i < |items| ==> MP.Texts(items)[i] == if items[i].Str? then items[i].s else ""
  {
    if items != [] {
      TextsInOrder(items[1..]);
      forall i | 0 <= i < |items|
        ensures MP.Texts(items)[i] == if items[i].Str? then items[i].s else ""
      {
        assert i > 0 ==> items[i] == items[1..][i - 1];
      }
    }
  }

  lemma {:induction false} LookupLast(j: MP.Json, path: seq<string>, key: string)
    ensures MP.Lookup(j, path + [key]) ==
            match MP.Lookup(j, path)
            case None => None
            case Some(v) => MP.Get(v, key)
    decreases |path|
  {
    if path == [] {
      assert path + [key] == [key] && [key][1..] == [];
    } else if j.Obj? && path[0] in j.fields {
      assert (path + [key])[1..] == path[1..] + [key];
      LookupLast(j.fields[path[0]], path[1..], key);
    }
  }

  lemma EntryShown(j: MP.Json)
    requires HelmValues.ReadableEntry(j)
    ensures var e := MP.EntryOf(j);
            && (e.enabled <==> MP.Get(j, "enabled") == Some(MP.Bool(true)))
            && (e.core <==> MP.Get(j, "core") == Some(MP.Bool(true)))
            && Lists(MP.Get(j, "dependsOn"), e.dependsOn)
  {
    var listed := MP.Get(j, "dependsOn");
    if listed.Some? && listed.value.Arr? {
      TextsInOrder(listed.value.items);
    }
  }

  lemma FieldAt(values: MP.Json, kind: string, n: string, field: string)
    ensures At(values, kind, n, field) ==
            match Component(values, kind, n)
            case None => None
            case Some(v) => MP.Get(v, field)
  {
    LookupLast(values, ["spec", "values", "platform", "components", kind, n], field);
    assert ["spec", "values", "platform", "components", kind, n] + [field] ==
           ["spec", "values", "platform", "components", kind, n, field];
  }

  lemma ComponentAt(values: MP.Json, kind: string, n: string)
    requires HelmValues.Readable(values) && (kind == "apps" || kind == "crds")
    ensures var entries := MP.Fields(MP.At(MP.Fields(MP.Lookup(values, MP.PREFIX).value), kind));
            && Component(values, kind, n) == (if n in entries then Some(entries[n]) else None)
            && (n in entries ==> HelmValues.ReadableEntry(entries[n]))
            && MP.Entries(values, kind) == MP.EntriesOf(entries)
  {
    LookupLast(values, MP.PREFIX, kind);
    LookupLast(values, MP.PREFIX + [kind], n);
    assert MP.PREFIX + [kind] + [n] == ["spec", "values", "platform", "components", kind, n];
    HelmValues.LookupKind(values, kind);
  }

  predicate Flag(v: MP.Json) { v.Null? || v.Bool? }

  predicate Text(v: MP.Json) { v.Null? || v.Str? }

  predicate TextArray(v: MP.Json) { v.Null? || (v.Arr? && forall d | d in v.items :: Text(d)) }

  predicate Object(v: MP.Json) { v.Null? || v.Obj? }

  ghost predicate Typed(field: Option<MP.Json>, fits: MP.Json -> bool) {
    field.Some? ==> fits(field.value)
  }

  /** A null, or an object whose known fields, as far as they are there and not null, are flags, a text and an
      array of texts and nulls. */
  ghost predicate WellTyped(values: MP.Json, kind: string, n: string) {
    && Typed(Component(values, kind, n), Object)
    && Typed(At(values, kind, n, "enabled"), Flag) && Typed(At(values, kind, n, "core"), Flag)
    && Typed(At(values, kind, n, "namespace"), Text) && Typed(At(values, kind, n, "dependsOn"), TextArray)
  }

  ghost predicate KindTyped(values: MP.Json, kind: string) {
    && Typed(MP.Lookup(values, ["spec", "values", "platform", "components", kind]), Object)
    && forall n :: WellTyped(values, kind, n)
  }

  lemma OneTyped(values: MP.Json, kind: string, n: string, j: MP.Json)
    requires Component(values, kind, n) == Some(j)
    ensures WellTyped(values, kind, n) <==> HelmValues.ReadableEntry(j)
  {
    FieldAt(values, kind, n, "enabled");
    FieldAt(values, kind, n, "core");
    FieldAt(values, kind, n, "namespace");
    FieldAt(values, kind, n, "dependsOn");
  }

  lemma AbsentTyped(values: MP.Json, kind: string, n: string)
    requires Component(values, kind, n).None?
    ensures WellTyped(values, kind, n)
  {
    FieldAt(values, kind, n, "enabled");
    FieldAt(values, kind, n, "core");
    FieldAt(values, kind, n, "namespace");
    FieldAt(values, kind, n, "dependsOn");
  }

  lemma KindDecodes(values: MP.Json, kind: string)
    requires MP.Lookup(values, MP.PREFIX).Some? && MP.Lookup(values, MP.PREFIX).value.Obj?
    ensures HelmValues.ReadableKind(MP.Lookup(values, MP.PREFIX).value, kind) <==> KindTyped(values, kind)
  {
    var components := MP.Lookup(values, MP.PREFIX).value;
    var entries := MP.At(MP.Fields(components), kind);
    LookupLast(values, MP.PREFIX, kind);
    var all := MP.Lookup(values, ["spec", "values", "platform", "components", kind]);
    assert MP.PREFIX + [kind] == ["spec", "values", "platform", "components", kind];
    assert all == MP.Get(components, kind);
    assert Typed(all, Object) <==> entries.Null? || entries.Obj?;
    forall n
      ensures WellTyped(values, kind, n) <==>
              n !in MP.Fields(entries) || HelmValues.ReadableEntry(MP.Fields(entries)[n])
    {
      OneDecodes(values, kind, n);
    }
    assert (forall n :: WellTyped(values, kind, n)) <==>
           forall n :: n in MP.Fields(entries) ==> HelmValues.ReadableEntry(MP.Fields(entries)[n]);
    assert KindTyped(values, kind) <==> Typed(all, Object) && forall n :: WellTyped(values, kind, n);
    KindReads(components, kind);
  }

  lemma KindReads(components: MP.Json, kind: string)
    ensures var entries := MP.At(MP.Fields(components), kind);
            HelmValues.ReadableKind(components, kind) <==>
            (entries.Null? || entries.Obj?) &&
            forall n :: n in MP.Fields(entries) ==> HelmValues.ReadableEntry(MP.Fields(entries)[n])
  {
    var entries := MP.At(MP.Fields(components), kind);
    if entries.Obj? {
      assert MP.Fields(entries) == entries.fields;
      if HelmValues.ReadableKind(components, kind) {
        forall n | n in MP.Fields(entries)
          ensures HelmValues.ReadableEntry(MP.Fields(entries)[n])
        {
          assert n in entries.fields;
        }
      }
    }
  }

  lemma OneDecodes(values: MP.Json, kind: string, n: string)
    requires MP.Lookup(values, MP.PREFIX).Some? && MP.Lookup(values, MP.PREFIX).value.Obj?
    ensures var entries := MP.At(MP.Fields(MP.Lookup(values, MP.PREFIX).value), kind);
            WellTyped(values, kind, n) <==>
            n !in MP.Fields(entries) || HelmValues.ReadableEntry(MP.Fields(entries)[n])
  {
    var entries := MP.At(MP.Fields(MP.Lookup(values, MP.PREFIX).value), kind);
    LookupLast(values, MP.PREFIX, kind);
    LookupLast(values, MP.PREFIX + [kind], n);
    assert MP.PREFIX + [kind] + [n] == ["spec", "values", "platform", "components", kind, n];
    if n in MP.Fields(entries) {
      OneTyped(values, kind, n, MP.Fields(entries)[n]);
    } else {
      AbsentTyped(values, kind, n);
    }
  }

  /** The values decode exactly when the components section is an object whose two kinds are objects, null or
      absent, with components of the types that the decoder expects. */
  lemma DecodesExactly(values: MP.Json)
    ensures HelmValues.Readable(values) <==>
              var components := MP.Lookup(values, ["spec", "values", "platform", "components"]);
              && components.Some? && components.value.Obj?
              && KindTyped(values, "apps") && KindTyped(values, "crds")
  {
    var components := MP.Lookup(values, MP.PREFIX);
    if components.Some? && components.value.Obj? {
      KindDecodes(values, "apps");
      KindDecodes(values, "crds");
    }
  }

  /** Readable values are read as the components that stand at the two places, each with its two flags and
      its list of dependencies. */
  lemma ReadComponents(values: MP.Json)
    requires HelmValues.Readable(values)
    ensures Shows(values, "apps", MP.ConfigOf(values).apps) && Shows(values, "crds", MP.ConfigOf(values).crds)
  {
    ReadKind(values, "apps");
    ReadKind(values, "crds");
  }

  lemma ReadKind(values: MP.Json, kind: string)
    requires HelmValues.Readable(values) && (kind == "apps" || kind == "crds")
    ensures Shows(values, kind, MP.Entries(values, kind))
  {
    forall n
      ensures n in MP.Entries(values, kind) <==> Component(values, kind, n).Some?
      ensures n in MP.Entries(values, kind) ==>
                var e := MP.Entries(values, kind)[n];
                && (e.enabled <==> IsOn(values, kind, n, "enabled")) && (e.core <==> IsOn(values, kind, n, "core"))
                && Lists(At(values, kind, n, "dependsOn"), e.dependsOn)
    {
      ReadOne(values, kind, n);
    }
  }

  lemma ReadOne(values: MP.Json, kind: string, n: string)
    requires HelmValues.Readable(values) && (kind == "apps" || kind == "crds")
    ensures n in MP.Entries(values, kind) <==> Component(values, kind, n).Some?
    ensures n in MP.Entries(values, kind) ==>
              var e := MP.Entries(values, kind)[n];
              && (e.enabled <==> IsOn(values, kind, n, "enabled")) && (e.core <==> IsOn(values, kind, n, "core"))
              && Lists(At(values, kind, n, "dependsOn"), e.dependsOn)
  {
    ComponentAt(values, kind, n);
    FieldAt(values, kind, n, "enabled");
    FieldAt(values, kind, n, "core");
    FieldAt(values, kind, n, "dependsOn");
    if Component(values, kind, n).Some? {
      EntryShown(Component(values, kind, n).value);
    }
  }

  // ---- installing

  /** The name's component, an app when there is one of that name, is enabled in the document. */
  ghost predicate OnInDocument(values: MP.Json, n: string) {
    IsOn(values, if Component(values, "apps", n).Some? then "apps" else "crds", n, "enabled")
  }

  /** The array at the component lists the text d. */
  ghost predicate ListedAt(values: MP.Json, kind: string, n: string, d: string) {
    var listed := At(values, kind, n, "dependsOn");
    listed.Some? && listed.value.Arr? && MP.Str(d) in listed.value.items
  }

  lemma ListedIsNeeded(values: MP.Json, n: string, d: string)
    requires HelmValues.Readable(values)
    requires ListedAt(values, if Component(values, "apps", n).Some? then "apps" else "crds", n, d)
    ensures Needs(MP.ConfigOf(values), n, d)
  {
    ReadComponents(values);
    var kind := if Component(values, "apps", n).Some? then "apps" else "crds";
    FieldAt(values, kind, n, "dependsOn");
    var items := At(values, kind, n, "dependsOn").value.items;
    var i :| 0 <= i < |items| && items[i] == MP.Str(d);
    var e := MP.ConfigOf(values).Get(n).value;
    assert e.dependsOn[i] == d;
  }

  lemma EnabledIsOn(values: MP.Json, n: string)
    requires HelmValues.Readable(values)
    ensures Enabled(MP.ConfigOf(values), n) <==> OnInDocument(values, n)
  {
    ReadComponents(values);
    FieldAt(values, "crds", n, "enabled");
  }

  /** The names that the array of each name lists, any number of times. */
  ghost predicate Chain(values: MP.Json, names: seq<string>) {
    names != [] && forall i :: 0 < i < |names| ==>
      var n := names[i - 1];
      ListedAt(values, if Component(values, "apps", n).Some? then "apps" else "crds", n, names[i])
  }

  lemma ChainReaches(values: MP.Json, names: seq<string>)
    requires HelmValues.Readable(values) && Chain(values, names)
    ensures Reaches(MP.ConfigOf(values), names[0], names[|names| - 1])
  {
    forall k | 0 <= k < |names| - 1
      ensures Needs(MP.ConfigOf(values), names[k], names[k + 1])
    {
      ListedIsNeeded(values, names[k], names[k + 1]);
    }
    assert IsPath(MP.ConfigOf(values), names);
  }

  lemma ListedDepends(values: MP.Json, kind: string, n: string, name: string)
    requires HelmValues.Readable(values) && (kind == "apps" || kind == "crds")
    ensures IsOn(values, kind, n, "enabled") && ListedAt(values, kind, n, name) ==>
              var c := MP.ConfigOf(values);
              DependsOn(if kind == "apps" then c.apps else c.crds, n, name)
  {
    ReadComponents(values);
    FieldAt(values, kind, n, "enabled");
    if IsOn(values, kind, n, "enabled") && ListedAt(values, kind, n, name) {
      var c := MP.ConfigOf(values);
      var items := At(values, kind, n, "dependsOn").value.items;
      var i :| 0 <= i < |items| && items[i] == MP.Str(name);
      assert (if kind == "apps" then c.apps else c.crds)[n].dependsOn[i] == name;
    }
  }

  /** An install that succeeds, planned from what is deployed and asked for alike: in the merged values that the
      release object then asks for, the component is enabled, and so is every name that dependsOn arrays lead to
      from it. */
  method InstallFromCurrent(cluster: Cluster, name: string, w: World) returns (ok: bool)
    requires cluster.deployed == cluster.release && cluster.Valid() && cluster.sent == []
    modifies cluster`release, cluster`sent
    ensures ok ==> OnInDocument(MP.Merge(cluster.defaults, cluster.release), name)
    ensures ok ==> forall names ::
              Chain(MP.Merge(cluster.defaults, old(cluster.release)), names) && names[0] == name ==>
              OnInDocument(MP.Merge(cluster.defaults, cluster.release), names[|names| - 1])
  {
    ghost var before := MP.Merge(cluster.defaults, cluster.release);
    ok := cluster.Install(name, w);
    ghost var after := MP.Merge(cluster.defaults, cluster.release);
    if ok {
      ReachesSelf(MP.ConfigOf(before), name);
      EnabledIsOn(after, name);
      forall names | Chain(before, names) && names[0] == name
        ensures OnInDocument(after, names[|names| - 1])
      {
        ChainReaches(before, names);
        EnabledIsOn(after, names[|names| - 1]);
      }
    }
  }

  /** An uninstall that succeeds from such a reading, of an app that was enabled: nothing enabled in the merged
      values lists it, and it is off in what the release object then asks for. */
  method UninstallFromCurrent(cluster: Cluster, name: string, confirmed: bool, patched: bool) returns (ok: bool)
    requires cluster.deployed == cluster.release && cluster.Valid() && cluster.sent == []
    modifies cluster`release, cluster`sent
    ensures ok ==> Component(MP.Merge(cluster.defaults, old(cluster.release)), "apps", name).Some?
    ensures ok ==> !IsOn(MP.Merge(cluster.defaults, old(cluster.release)), "apps", name, "core")
    ensures ok ==> !IsOn(MP.Merge(cluster.defaults, cluster.release), "apps", name, "enabled")
    ensures ok && IsOn(MP.Merge(cluster.defaults, old(cluster.release)), "apps", name, "enabled") ==>
              forall kind, n :: (kind == "apps" || kind == "crds") ==>
                !(IsOn(MP.Merge(cluster.defaults, old(cluster.release)), kind, n, "enabled") &&
                  ListedAt(MP.Merge(cluster.defaults, old(cluster.release)), kind, n, name))
  {
    ghost var before := MP.Merge(cluster.defaults, cluster.release);
    ok := cluster.Uninstall(name, confirmed, patched);
    ghost var after := MP.Merge(cluster.defaults, cluster.release);
    if ok {
      ReadComponents(before);
      ReadComponents(after);
      if IsOn(before, "apps", name, "enabled") {
        forall kind, n | kind == "apps" || kind == "crds"
          ensures !(IsOn(before, kind, n, "enabled") && ListedAt(before, kind, n, name))
        {
          ListedDepends(before, kind, n, name);
        }
      }
    }
  }
}
