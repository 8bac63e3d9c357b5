/** Patches that enable and disable components, each planned from a reading that may be out of date: exactly
    when the enabled components stay closed under dependsOn. */
module InstallRuns {
  import opened Results
  import opened ComponentGraph

  const OPERATOR := "podplane-operator"

  ghost predicate Enabled(c: Config, name: string) {
    c.Get(name).Some? && c.Get(name).value.enabled
  }

  /** Whatever an enabled entry of either kind depends on is found and enabled. */
  ghost predicate Closed(c: Config) {
    && (forall n, d :: n in c.apps && c.apps[n].enabled && d in c.apps[n].dependsOn ==> Enabled(c, d))
    && (forall n, d :: n in c.crds && c.crds[n].enabled && d in c.crds[n].dependsOn ==> Enabled(c, d))
  }

  function Flip(c: Config, plan: EnableSet, enabled: bool): Config {
    Config(Enable(c.apps, plan.apps, enabled), Enable(c.crds, plan.crds, enabled))
  }

  ghost predicate NoDependents(c: Config, name: string) {
    forall n :: !DependsOn(c.apps, n, name) && !DependsOn(c.crds, n, name)
  }

  // ---- patches and the readings they are planned from

  /** A patch that a command sends, with the configuration that the command read. */
  datatype Patch = Enabling(seen: Config, name: string, plan: EnableSet) | Disabling(seen: Config, name: string)

  /** The commands plan it so: everything reachable that is not enabled, or one app that is not core and
      that nothing enabled depends on. */
  ghost predicate Planned(p: Patch) {
    match p
    case Enabling(c, name, plan) => PlanFor(c, name, plan) && !ReachesUnknown(c, name)
    case Disabling(c, name) => name in c.apps && !c.apps[name].core && c.apps[name].enabled && NoDependents(c, name)
  }

  function Patched(now: Config, p: Patch): Config {
    match p
    case Enabling(_, _, plan) => Flip(now, plan, true)
    case Disabling(_, name) => Flip(now, EnableSet([name], []), false)
  }

  ghost predicate SameEntries(a: map<string, Entry>, b: map<string, Entry>) {
    a.Keys == b.Keys && forall n :: n in a ==> b[n] == a[n].(enabled := b[n].enabled)
  }

  /** The same components, perhaps with others enabled. */
  ghost predicate Alike(a: Config, b: Config) {
    SameEntries(a.apps, b.apps) && SameEntries(a.crds, b.crds)
  }

  /** A plan names entries that are there. */
  ghost predicate Known(c: Config, plan: EnableSet) {
    (forall n :: n in plan.apps ==> n in c.apps) && (forall n :: n in plan.crds ==> n in c.crds)
  }

  lemma FlipAlike(c: Config, plan: EnableSet, enabled: bool)
    requires Known(c, plan)
    ensures Alike(c, Flip(c, plan, enabled))
  {
  }

  lemma PatchedAlike(now: Config, p: Patch)
    requires Planned(p) && Alike(p.seen, now)
    ensures Alike(p.seen, Patched(now, p)) && Alike(now, Patched(now, p))
  {
    FlipAlike(now, if p.Enabling? then p.plan else EnableSet([p.name], []), p.Enabling?);
  }

  /** The plan leaves d alone because d was enabled when it was made, and enables something that needs d. */
  ghost predicate ReliesOn(c: Config, plan: EnableSet, d: string) {
    Enabled(c, d) && exists n :: (n in plan.apps || n in plan.crds) && Needs(c, n, d)
  }

  /** What the patch relies on still holds: nothing was disabled below what it enables, and nothing was
      enabled above what it disables. */
  ghost predicate Fresh(now: Config, p: Patch) {
    match p
    case Enabling(c, _, plan) => forall d :: ReliesOn(c, plan, d) ==> Enabled(now, d)
    case Disabling(_, name) => NoDependents(now, name)
  }

  lemma PlannedIsReached(c: Config, name: string, plan: EnableSet, x: string)
    requires PlanFor(c, name, plan) && Reaches(c, name, x) && c.Get(x).Some?
    ensures Enabled(c, x) <==> x !in plan.apps && x !in plan.crds
  {
  }

  lemma EnabledAfter(c: Config, now: Config, plan: EnableSet, x: string)
    requires Alike(c, now) && Known(c, plan) && (x in plan.crds ==> x !in c.apps)
    ensures Enabled(Flip(now, plan, true), x) <==> Enabled(now, x) || x in plan.apps || x in plan.crds
  {
  }

  /** An out-of-date plan enables all that the component reaches exactly when it misses nothing that was
      disabled since. */
  lemma PlanEnables(now: Config, p: Patch)
    requires p.Enabling? && Planned(p) && Alike(p.seen, now)
    ensures (forall x :: Reaches(p.seen, p.name, x) ==> Enabled(Patched(now, p), x)) <==>
            (forall x :: Reaches(p.seen, p.name, x) && Enabled(p.seen, x) ==> Enabled(now, x))
  {
    forall x | Reaches(p.seen, p.name, x)
      ensures Enabled(Patched(now, p), x) <==> (Enabled(p.seen, x) ==> Enabled(now, x))
    {
      assert p.seen.Get(x).Some?;
      PlannedIsReached(p.seen, p.name, p.plan, x);
      EnabledAfter(p.seen, now, p.plan, x);
    }
  }

  /** A dependency of a planned entry is enabled afterwards when the plan is fresh. */
  lemma PlannedNeeds(now: Config, p: Patch, n: string, x: string)
    requires p.Enabling? && Planned(p) && Alike(p.seen, now) && Fresh(now, p)
    requires (n in p.plan.apps || n in p.plan.crds) && Needs(p.seen, n, x)
    ensures Enabled(Patched(now, p), x)
  {
    ReachesNext(p.seen, p.name, n, x);
    assert p.seen.Get(x).Some?;
    PlannedIsReached(p.seen, p.name, p.plan, x);
    assert Enabled(p.seen, x) ==> ReliesOn(p.seen, p.plan, x);
    EnabledAfter(p.seen, now, p.plan, x);
  }

  lemma FreshEnablingCloses(now: Config, p: Patch)
    requires p.Enabling? && Planned(p) && Alike(p.seen, now) && Closed(now) && Fresh(now, p)
    ensures Closed(Patched(now, p))
  {
    var e := Patched(now, p);
    forall n, x | n in e.apps && e.apps[n].enabled && x in e.apps[n].dependsOn
      ensures Enabled(e, x)
    {
      if n in p.plan.apps {
        PlannedNeeds(now, p, n, x);
      } else {
        EnabledAfter(p.seen, now, p.plan, x);
      }
    }
    forall n, x | n in e.crds && e.crds[n].enabled && x in e.crds[n].dependsOn
      ensures Enabled(e, x)
    {
      if n in p.plan.crds {
        PlannedNeeds(now, p, n, x);
      } else {
        EnabledAfter(p.seen, now, p.plan, x);
      }
    }
  }

  lemma ClosedEnablingIsFresh(now: Config, p: Patch)
    requires p.Enabling? && Planned(p) && Alike(p.seen, now) && Closed(Patched(now, p))
    ensures Fresh(now, p)
  {
    var e := Patched(now, p);
    forall d | ReliesOn(p.seen, p.plan, d)
      ensures Enabled(now, d)
    {
      var n :| (n in p.plan.apps || n in p.plan.crds) && Needs(p.seen, n, d);
      ReachesNext(p.seen, p.name, n, d);
      PlannedIsReached(p.seen, p.name, p.plan, d);
      EnabledAfter(p.seen, now, p.plan, d);
      if n in p.plan.apps {
        assert e.apps[n].enabled && d in e.apps[n].dependsOn;
      } else {
        assert e.crds[n].enabled && d in e.crds[n].dependsOn;
      }
    }
  }

  lemma DisablingCloses(now: Config, p: Patch)
    requires p.Disabling? && Planned(p) && Alike(p.seen, now) && Closed(now)
    ensures Closed(Patched(now, p)) <==> Fresh(now, p)
  {
    var e := Patched(now, p);
    assert p.name !in p.seen.apps[p.name].dependsOn by {
      assert !DependsOn(p.seen.apps, p.name, p.name);
    }
    if Fresh(now, p) {
      forall n, x | n in e.apps && e.apps[n].enabled && x in e.apps[n].dependsOn
        ensures Enabled(e, x)
      {
        assert n != p.name && Enabled(now, x) && !DependsOn(now.apps, n, p.name);
      }
      forall n, x | n in e.crds && e.crds[n].enabled && x in e.crds[n].dependsOn
        ensures Enabled(e, x)
      {
        assert Enabled(now, x) && !DependsOn(now.crds, n, p.name);
      }
    } else {
      var n :| DependsOn(now.apps, n, p.name) || DependsOn(now.crds, n, p.name);
      assert p.name in now.apps && !Enabled(e, p.name);
      if DependsOn(now.apps, n, p.name) {
        assert n != p.name && e.apps[n] == now.apps[n];
      } else {
        assert e.crds[n] == now.crds[n];
      }
    }
  }

  /** However old its reading is, a patch keeps the enabled components closed exactly when it is fresh. */
  lemma PatchClosesExactly(now: Config, p: Patch)
    requires Planned(p) && Alike(p.seen, now) && Closed(now)
    ensures Closed(Patched(now, p)) <==> Fresh(now, p)
  {
    if p.Disabling? {
      DisablingCloses(now, p);
    } else if Fresh(now, p) {
      FreshEnablingCloses(now, p);
    } else if Closed(Patched(now, p)) {
      ClosedEnablingIsFresh(now, p);
    }
  }

  // ---- runs

  /** The configuration after the first k patches. */
  ghost function After(start: Config, ps: seq<Patch>, k: nat): Config
    requires k <= |ps|
  {
    if k == 0 then start else Patched(After(start, ps, k - 1), ps[k - 1])
  }

  /** Patches of any commands, in the order in which they arrive. */
  ghost predicate Run(start: Config, ps: seq<Patch>) {
    forall p {:trigger Planned(p)} :: p in ps ==> Planned(p) && Alike(p.seen, start)
  }

  lemma AlikeTrans(a: Config, b: Config, c: Config)
    requires Alike(a, b) && Alike(a, c)
    ensures Alike(b, c)
  {
  }

  lemma {:induction false} AfterAlike(start: Config, ps: seq<Patch>, k: nat)
    requires Run(start, ps) && k <= |ps|
    ensures Alike(start, After(start, ps, k))
    ensures k < |ps| ==> Planned(ps[k]) && Alike(ps[k].seen, After(start, ps, k))
  {
    if k > 0 {
      AfterAlike(start, ps, k - 1);
      PatchedAlike(After(start, ps, k - 1), ps[k - 1]);
      AlikeTrans(After(start, ps, k - 1), start, After(start, ps, k));
    }
    if k < |ps| {
      assert ps[k] in ps && Planned(ps[k]);
      AlikeTrans(start, ps[k].seen, After(start, ps, k));
    }
  }

  lemma StepClosesExactly(start: Config, ps: seq<Patch>, k: nat)
    requires Run(start, ps) && k < |ps| && Closed(After(start, ps, k))
    ensures Closed(After(start, ps, k + 1)) <==> Fresh(After(start, ps, k), ps[k])
  {
    AfterAlike(start, ps, k);
    PatchClosesExactly(After(start, ps, k), ps[k]);
  }

  ghost predicate StaysClosed(start: Config, ps: seq<Patch>, k: nat)
    requires k <= |ps|
  {
    forall i :: 0 <= i <= k ==> Closed(After(start, ps, i))
  }

  ghost predicate StaysFresh(start: Config, ps: seq<Patch>, k: nat)
    requires k <= |ps|
  {
    forall i :: 0 <= i < k ==> Fresh(After(start, ps, i), ps[i])
  }

  lemma StaysNext(start: Config, ps: seq<Patch>, k: nat)
    requires k < |ps|
    ensures StaysClosed(start, ps, k + 1) <==> StaysClosed(start, ps, k) && Closed(After(start, ps, k + 1))
    ensures StaysFresh(start, ps, k + 1) <==> StaysFresh(start, ps, k) && Fresh(After(start, ps, k), ps[k])
    ensures StaysClosed(start, ps, k) ==> Closed(After(start, ps, k))
  {
  }

  /** Over every run of patches from a closed start, whatever each was planned from, every state up to the
      k-th is closed if and only if every patch up to there was fresh when it arrived. */
  lemma {:induction false} RunsStayClosed(start: Config, ps: seq<Patch>, k: nat)
    requires Closed(start) && Run(start, ps) && k <= |ps|
    ensures StaysClosed(start, ps, k) <==> StaysFresh(start, ps, k)
    decreases k
  {
    if k == 0 {
      StartStays(start, ps);
    } else {
      RunsStayClosed(start, ps, k - 1);
      StaysOnce(start, ps, k - 1);
    }
  }

  lemma StaysOnce(start: Config, ps: seq<Patch>, k: nat)
    requires Run(start, ps) && k < |ps| && (StaysClosed(start, ps, k) <==> StaysFresh(start, ps, k))
    ensures StaysClosed(start, ps, k + 1) <==> StaysFresh(start, ps, k + 1)
  {
    StaysNext(start, ps, k);
    if StaysClosed(start, ps, k) {
      StepClosesExactly(start, ps, k);
    }
  }

  lemma StartStays(start: Config, ps: seq<Patch>)
    requires Closed(start)
    ensures StaysClosed(start, ps, 0) && StaysFresh(start, ps, 0)
  {
  }

  // ---- readings that are recent enough

  /** At least the same entries enabled. */
  ghost predicate Grown(a: Config, b: Config) {
    && Alike(a, b)
    && (forall n :: n in a.apps && a.apps[n].enabled ==> b.apps[n].enabled)
    && (forall n :: n in a.crds && a.crds[n].enabled ==> b.crds[n].enabled)
  }

  lemma GrownIsFresh(now: Config, p: Patch)
    requires Planned(p) && if p.Enabling? then Grown(p.seen, now) else Grown(now, p.seen)
    ensures Fresh(now, p)
  {
    if p.Disabling? {
      forall n
        ensures !DependsOn(now.apps, n, p.name) && !DependsOn(now.crds, n, p.name)
      {
        assert !DependsOn(p.seen.apps, n, p.name) && !DependsOn(p.seen.crds, n, p.name);
      }
    }
  }

  /** From a to b entries were only enabled, or only disabled. */
  ghost predicate OneWay(a: Config, b: Config, enabling: bool) {
    if enabling then Grown(a, b) else Grown(b, a)
  }

  lemma GrownTrans(a: Config, b: Config, c: Config)
    requires Grown(a, b) && Grown(b, c)
    ensures Grown(a, c)
  {
  }

  lemma PatchGoesOneWay(now: Config, p: Patch)
    requires Planned(p) && Alike(p.seen, now)
    ensures OneWay(now, Patched(now, p), p.Enabling?)
  {
    PatchedAlike(now, p);
  }

  lemma StepGoesOneWay(start: Config, ps: seq<Patch>, k: nat)
    requires Run(start, ps) && k < |ps|
    ensures OneWay(After(start, ps, k), After(start, ps, k + 1), ps[k].Enabling?)
  {
    AfterAlike(start, ps, k);
    PatchGoesOneWay(After(start, ps, k), ps[k]);
  }

  lemma {:induction false} ChainGoesOneWay(states: seq<Config>, j: nat, k: nat, enabling: bool)
    requires j <= k < |states| && forall i :: j <= i < k ==> OneWay(states[i], states[i + 1], enabling)
    ensures OneWay(states[j], states[k], enabling)
    decreases k
  {
    if j < k {
      ChainGoesOneWay(states, j, k - 1, enabling);
      assert OneWay(states[k - 1], states[k - 1 + 1], enabling);
      if enabling {
        GrownTrans(states[j], states[k - 1], states[k]);
      } else {
        GrownTrans(states[k], states[k - 1], states[j]);
      }
    }
  }

  lemma SameKindGrows(start: Config, ps: seq<Patch>, j: nat, k: nat, enabling: bool)
    requires Run(start, ps) && j <= k <= |ps| && forall i :: j <= i < k ==> ps[i].Enabling? == enabling
    ensures OneWay(After(start, ps, j), After(start, ps, k), enabling)
  {
    var states := seq(k + 1, i requires 0 <= i <= k => After(start, ps, i));
    forall i | j <= i < k
      ensures OneWay(states[i], states[i + 1], enabling)
    {
      StepGoesOneWay(start, ps, i);
    }
    ChainGoesOneWay(states, j, k, enabling);
  }

  /** The k-th patch was planned from an earlier state of the run, and only patches of its own kind came
      in between. */
  ghost predicate Undisturbed(start: Config, ps: seq<Patch>, k: nat)
    requires k < |ps|
  {
    exists j :: 0 <= j <= k && ps[k].seen == After(start, ps, j) &&
                forall i :: j <= i < k ==> ps[i].Enabling? == ps[k].Enabling?
  }

  /** Readings may be as old as they like when no install meets an uninstall: any interleaving of installs
      that read earlier states stays closed, and so do commands of both kinds one after another. */
  lemma UndisturbedRunsClose(start: Config, ps: seq<Patch>, k: nat)
    requires Closed(start) && Run(start, ps) && k <= |ps|
    requires forall i :: 0 <= i < |ps| ==> Undisturbed(start, ps, i)
    ensures Closed(After(start, ps, k))
  {
    forall i | 0 <= i < k
      ensures Fresh(After(start, ps, i), ps[i])
    {
      UndisturbedIsFresh(start, ps, i);
    }
    RunsStayClosed(start, ps, k);
    assert StaysFresh(start, ps, k);
  }

  lemma UndisturbedIsFresh(start: Config, ps: seq<Patch>, k: nat)
    requires Run(start, ps) && k < |ps| && Undisturbed(start, ps, k)
    ensures Fresh(After(start, ps, k), ps[k])
  {
    var j :| 0 <= j <= k && ps[k].seen == After(start, ps, j) &&
             forall i :: j <= i < k ==> ps[i].Enabling? == ps[k].Enabling?;
    AfterAlike(start, ps, k);
    SameKindGrows(start, ps, j, k, ps[k].Enabling?);
    GrownIsFresh(After(start, ps, k), ps[k]);
  }

  /** a needs b, which is enabled. */
  function Pair(a: string, b: string): Config {
    Config(map[a := Entry(false, false, [b]), b := Entry(true, false, [])], map[])
  }

  lemma PairPlans(a: string, b: string)
    requires a != b
    ensures Closed(Pair(a, b)) && Planned(Disabling(Pair(a, b), b))
    ensures Planned(Enabling(Pair(a, b), a, EnableSet([a], [])))
  {
    var c := Pair(a, b);
    forall x | Reaches(c, a, x)
      ensures x == a || x == b
    {
      ClosedHoldsReached(c, {a, b}, a, x);
    }
    ReachesSelf(c, a);
  }

  /** With one uninstall in between it fails: b is uninstalled, and an install of a, which needs b, that
      read the configuration before leaves a enabled and b disabled. */
  lemma StaleInstallBreaks(a: string, b: string)
    requires a != b
    ensures var c := Pair(a, b);
            var ps := [Disabling(c, b), Enabling(c, a, EnableSet([a], []))];
            && Closed(c) && Run(c, ps)
            && Enabled(After(c, ps, 2), a) && !Enabled(After(c, ps, 2), b) && !Closed(After(c, ps, 2))
  {
    var c := Pair(a, b);
    var p, q := Disabling(c, b), Enabling(c, a, EnableSet([a], []));
    PairPlans(a, b);
    assert After(c, [p, q], 1) == Patched(c, p);
    var e := After(c, [p, q], 2);
    assert e == Patched(Patched(c, p), q);
    assert e.apps[a].enabled && b in e.apps[a].dependsOn && !e.apps[b].enabled;
  }

  // ---- core components

  /** Core apps and CRD charts that are enabled in a are enabled in b. */
  ghost predicate KeepsCore(a: Config, b: Config) {
    && (forall n :: n in a.apps && a.apps[n].core && a.apps[n].enabled ==>
         n in b.apps && b.apps[n].core && b.apps[n].enabled)
    && (forall n :: n in a.crds && a.crds[n].enabled ==> n in b.crds && b.crds[n].enabled)
  }

  lemma PatchKeepsCore(now: Config, p: Patch)
    requires Planned(p) && Alike(p.seen, now)
    ensures KeepsCore(now, Patched(now, p))
  {
  }

  lemma KeepsCoreTrans(a: Config, b: Config, c: Config)
    requires KeepsCore(a, b) && KeepsCore(b, c)
    ensures KeepsCore(a, c)
  {
  }

  lemma StepKeepsCore(start: Config, ps: seq<Patch>, k: nat, a: Config)
    requires Run(start, ps) && k < |ps| && KeepsCore(a, After(start, ps, k))
    ensures KeepsCore(a, After(start, ps, k + 1))
  {
    AfterAlike(start, ps, k);
    PatchKeepsCore(After(start, ps, k), ps[k]);
    KeepsCoreTrans(a, After(start, ps, k), After(start, ps, k + 1));
  }

  /** However old the readings are, no run of patches disables a core app or a CRD chart. */
  lemma {:induction false} CoreStays(start: Config, ps: seq<Patch>, j: nat, k: nat)
    requires Run(start, ps) && j <= k <= |ps|
    ensures KeepsCore(After(start, ps, j), After(start, ps, k))
    decreases k
  {
    if j < k {
      CoreStays(start, ps, j, k - 1);
      StepKeepsCore(start, ps, k - 1, After(start, ps, j));
    }
  }
}
