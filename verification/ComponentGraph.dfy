/** Which components must be enabled for one to run: the walk over the dependency graph. */
module ComponentGraph {
  import opened Results
  import opened SortedNames

  datatype Entry = Entry(enabled: bool, core: bool, dependsOn: seq<string>)

  /** Apps and CRD charts by name. A name may be in both; the app is the one that is found. */
  datatype Config = Config(apps: map<string, Entry>, crds: map<string, Entry>) {
    predicate Has(name: string) {
      name in apps || name in crds
    }

    function Get(name: string): Option<Entry> {
      if name in apps then Some(apps[name])
      else if name in crds then Some(crds[name])
      else None
    }
  }

  /** The listed entries with the flag set, absent ones created. */
  function Enable(entries: map<string, Entry>, names: seq<string>, enabled: bool): map<string, Entry> {
    map n | n in entries.Keys + (set x | x in names) ::
      if n in names then (if n in entries then entries[n] else Entry(false, false, [])).(enabled := enabled)
        else entries[n]
  }

  /** Names in ascending order. */
  datatype EnableSet = EnableSet(apps: seq<string>, crds: seq<string>) {
    predicate IsEmpty() { apps == [] && crds == [] }
  }

  ghost predicate Needs(c: Config, a: string, b: string) {
    c.Get(a).Some? && b in c.Get(a).value.dependsOn
  }

  ghost predicate IsPath(c: Config, p: seq<string>) {
    p != [] && forall k :: 0 <= k < |p| - 1 ==> Needs(c, p[k], p[k + 1])
  }

  /** Following dependsOn any number of times leads from a to b. */
  ghost predicate Reaches(c: Config, a: string, b: string) {
    exists p :: IsPath(c, p) && p[0] == a && p[|p| - 1] == b
  }

  lemma ReachesSelf(c: Config, a: string)
    ensures Reaches(c, a, a)
  {
    assert IsPath(c, [a]);
  }

  lemma ReachesThrough(c: Config, a: string, b: string, d: string)
    requires Needs(c, a, b) && Reaches(c, b, d)
    ensures Reaches(c, a, d)
  {
    var p :| IsPath(c, p) && p[0] == b && p[|p| - 1] == d;
    var q := [a] + p;
    assert forall k :: 0 < k < |q| ==> q[k] == p[k - 1];
    assert IsPath(c, q) && q[0] == a && q[|q| - 1] == d;
  }

  lemma {:induction false} ReachesNext(c: Config, a: string, b: string, d: string)
    requires Reaches(c, a, b) && Needs(c, b, d)
    ensures Reaches(c, a, d)
  {
    var p :| IsPath(c, p) && p[0] == a && p[|p| - 1] == b;
    var q := p + [d];
    assert forall k :: 0 <= k < |p| ==> q[k] == p[k];
    assert IsPath(c, q) && q[0] == a && q[|q| - 1] == d;
  }

  /** A closed set of known names holds everything its members reach. */
  ghost predicate ClosedUnder(c: Config, s: set<string>) {
    forall x, d :: x in s && Needs(c, x, d) ==> d in s
  }

  lemma {:induction false} ClosedHoldsPath(c: Config, s: set<string>, p: seq<string>)
    requires ClosedUnder(c, s) && IsPath(c, p) && p[0] in s
    ensures p[|p| - 1] in s
    decreases |p|
  {
    if |p| > 1 {
      var q := p[1..];
      assert forall k :: 0 <= k < |q| ==> q[k] == p[k + 1];
      assert Needs(c, p[0], p[1]);
      ClosedHoldsPath(c, s, q);
    }
  }

  lemma ClosedHoldsReached(c: Config, s: set<string>, a: string, b: string)
    requires ClosedUnder(c, s) && a in s && Reaches(c, a, b)
    ensures b in s
  {
    var p :| IsPath(c, p) && p[0] == a && p[|p| - 1] == b;
    ClosedHoldsPath(c, s, p);
  }

  /** Every name the walk can meet. */
  function Names(c: Config): set<string> {
    c.apps.Keys + c.crds.Keys
    + (set n, d | n in c.apps && d in c.apps[n].dependsOn :: d)
    + (set n, d | n in c.crds && d in c.crds[n].dependsOn :: d)
  }

  /** The recursive walk with the three maps it fills. */
  class Walker {
    const config: Config
    var visited: set<string>
    var apps: set<string>
    var crds: set<string>

    constructor (c: Config)
      ensures config == c && visited == {} && apps == {} && crds == {}
    {
      config, visited, apps, crds := c, {}, {}, {};
    }

    /** The visited names that are found and not yet enabled, apart by kind. */
    ghost predicate Collected()
      reads this
    {
      && (forall x :: x in apps <==> x in visited && x in config.apps && !config.apps[x].enabled)
      && (forall x :: x in crds <==> x in visited && x !in config.apps && x in config.crds && !config.crds[x].enabled)
    }

    /** Marks what n reaches. On success everything newly marked is known and has its dependencies
        marked; on failure some name that n reaches is unknown. */
    method Walk(n: string) returns (ok: bool)
      requires n in Names(config) && Collected()
      modifies this
      decreases Names(config) - visited
      ensures old(visited) <= visited
      ensures ok ==> n in visited && Collected()
      ensures ok ==> forall x :: x in visited - old(visited) ==> config.Get(x).Some? && Reaches(config, n, x)
      ensures ok ==> forall x, d :: x in visited - old(visited) && Needs(config, x, d) ==> d in visited
      ensures !ok ==> exists x :: Reaches(config, n, x) && config.Get(x).None?
    {
      if n in visited {
        return true;
      }
      visited := visited + {n};
      ReachesSelf(config, n);
      if config.Get(n).None? {
        return false;
      }
      var entry := config.Get(n).value;
      if !entry.enabled {
        if n in config.apps {
          apps := apps + {n};
        } else {
          crds := crds + {n};
        }
      }
      for i := 0 to |entry.dependsOn|
        invariant old(visited) + {n} <= visited && Collected()
        invariant forall x :: x in visited - old(visited) ==> config.Get(x).Some? && Reaches(config, n, x)
        invariant forall x, d :: x in visited - old(visited) - {n} && Needs(config, x, d) ==> d in visited
        invariant forall k :: 0 <= k < i ==> entry.dependsOn[k] in visited
      {
        var dep := entry.dependsOn[i];
        ghost var before := visited;
        assert Needs(config, n, dep);
        ok := Walk(dep);
        if !ok {
          ghost var x :| Reaches(config, dep, x) && config.Get(x).None?;
          ReachesThrough(config, n, dep, x);
          return;
        }
        forall x | x in visited - before
          ensures Reaches(config, n, x)
        {
          ReachesThrough(config, n, dep, x);
        }
      }
      ok := true;
    }
  }

  /** The names to enable: reachable, not enabled, and found as an app or as a CRD chart. */
  ghost predicate PlanFor(c: Config, name: string, plan: EnableSet) {
    && Ascending(plan.apps) && Ascending(plan.crds)
    && (forall x :: x in plan.apps <==> Reaches(c, name, x) && x in c.apps && !c.apps[x].enabled)
    && (forall x :: x in plan.crds <==> Reaches(c, name, x) && x !in c.apps && x in c.crds && !c.crds[x].enabled)
  }

  ghost predicate ReachesUnknown(c: Config, name: string) {
    exists x :: Reaches(c, name, x) && c.Get(x).None?
  }

  /** Fails exactly when some reachable name is unknown; otherwise returns exactly the reachable names
      that are not enabled. Cycles do not matter. */
  method ResolveEnable(c: Config, name: string) returns (r: Result<EnableSet>)
    ensures r.Err? <==> ReachesUnknown(c, name)
    ensures r.Ok? ==> PlanFor(c, name, r.value)
  {
    ReachesSelf(c, name);
    if !c.Has(name) {
      return Err;
    }
    var walker := new Walker(c);
    var ok := walker.Walk(name);
    if !ok {
      return Err;
    }
    var apps := SortNames(walker.apps);
    var crds := SortNames(walker.crds);
    forall x
      ensures x in walker.visited <==> Reaches(c, name, x)
    {
      if Reaches(c, name, x) {
        ClosedHoldsReached(c, walker.visited, name, x);
      }
    }
    return Ok(EnableSet(apps, crds));
  }

  /** The result is determined: there is one plan for a name. */
  lemma PlanUnique(c: Config, name: string, a: EnableSet, b: EnableSet)
    requires PlanFor(c, name, a) && PlanFor(c, name, b)
    ensures a == b
  {
    SortedUnique(a.apps, b.apps, set x | x in a.apps);
    SortedUnique(a.crds, b.crds, set x | x in a.crds);
  }

  ghost predicate DependsOn(entries: map<string, Entry>, n: string, name: string) {
    n in entries && entries[n].enabled && name in entries[n].dependsOn
  }

  /** Names of the enabled entries of either kind that list name. */
  method EnabledDependents(c: Config, name: string) returns (r: seq<string>)
    ensures Ascending(r)
    ensures forall n :: n in r <==> DependsOn(c.apps, n, name) || DependsOn(c.crds, n, name)
  {
    var inApps := Dependents(c.apps, name);
    var inCRDs := Dependents(c.crds, name);
    r := SortNames(inApps + inCRDs);
  }

  method Dependents(entries: map<string, Entry>, name: string) returns (seen: set<string>)
    ensures forall n :: n in seen <==> DependsOn(entries, n, name)
  {
    seen := {};
    var rest := entries.Keys;
    while rest != {}
      invariant rest <= entries.Keys
      invariant forall n :: n in seen <==> n !in rest && DependsOn(entries, n, name)
      decreases rest
    {
      var n :| n in rest;
      rest := rest - {n};
      if entries[n].enabled {
        for i := 0 to |entries[n].dependsOn|
          invariant name !in entries[n].dependsOn[..i]
        {
          if entries[n].dependsOn[i] == name {
            seen := seen + {n};
            break;
          }
        }
      }
    }
  }
}
