/** Install and uninstall over one cluster: they read the deployed release over the chart's defaults and patch
    the release object, which is deployed some time later. */
module InstallCommands {
  import opened Results
  import opened ComponentGraph
  import opened InstallRuns
  import MP = MergePatch
  import HelmValues

  /** Unknown names, CRD charts, core apps, and enabled apps that others need. */
  ghost predicate Refused(c: Config, name: string) {
    name !in c.apps || c.apps[name].core || (c.apps[name].enabled && !NoDependents(c, name))
  }

  /** What happens around an install: answers, and the calls that fail. */
  datatype World = World(
    operatorConfigValid: bool,
    confirmed: bool,
    required: Result<bool>,
    clusterKnown: bool,
    operatorPatched: bool,
    secretsReady: bool,
    patched: bool,
    settled: bool)

  /** Nothing, the operator's patch, the final one, or both, all planned from one reading. */
  ghost predicate InstallSends(seen: Config, name: string, ps: seq<Patch>) {
    && |ps| <= 2
    && (forall p :: p in ps ==> p.Enabling? && p.seen == seen && Planned(p))
    && (|ps| == 1 ==> ps[0].name == OPERATOR || ps[0].name == name)
    && (|ps| == 2 ==> ps[0].name == OPERATOR && ps[1].name == name)
  }

  ghost predicate OperatorSends(seen: Config, ps: seq<Patch>) {
    InstallSends(seen, OPERATOR, ps) && |ps| <= 1
  }

  ghost predicate UninstallSends(seen: Config, name: string, ps: seq<Patch>) {
    ps == [] || (ps == [Disabling(seen, name)] && Planned(ps[0]))
  }

  ghost predicate AllEnabled(seen: Config, now: Config, name: string) {
    !ReachesUnknown(seen, name) && forall x :: Reaches(seen, name, x) ==> Enabled(now, x)
  }

  /** Nothing that the component reaches was disabled since the reading. */
  ghost predicate NoneLost(seen: Config, now: Config, name: string) {
    forall x :: Reaches(seen, name, x) && Enabled(seen, x) ==> Enabled(now, x)
  }

  // ---- when a command goes through, and what it sends first

  /** How a component stands: all that it reaches is known, all that it reaches is enabled, and nothing but
      the component itself has to be enabled. */
  datatype Standing = Standing(known: bool, done: bool, alone: bool)

  ghost function StandingOf(c: Config, name: string): Standing {
    Standing(!ReachesUnknown(c, name), forall x :: Reaches(c, name, x) ==> Enabled(c, x),
             forall x :: Reaches(c, name, x) && !Enabled(c, x) ==> x == name)
  }

  /** The Secrets API comes up. */
  predicate Prepares(operator: Standing, w: World) {
    w.clusterKnown && operator.known && (operator.done || w.operatorPatched) && w.secretsReady
  }

  /** Nothing stands against the install. */
  predicate GoesThrough(own: Standing, operator: Standing, w: World) {
    own.done || (
      && (own.alone || w.confirmed)
      && w.required.Ok? && (w.required.value ==> Prepares(operator, w))
      && w.patched && w.settled)
  }

  /** How many patches a complete install sends: when secrets are required and the operator is not up, its
      patch comes first. */
  function Due(operator: Standing, w: World): nat {
    if w.required == Ok(true) && !operator.done then 2 else 1
  }

  /** Nothing is sent before a yes when more than the component is to be enabled, nor before it is known
      whether secrets are required; the component's own patch comes last, after the secrets are there. */
  predicate InOrder(own: Standing, operator: Standing, name: string, w: World, ps: seq<Patch>) {
    && |ps| <= Due(operator, w)
    && (ps != [] ==> !own.done && (own.alone || w.confirmed) && w.required.Ok?)
    && (ps != [] && Due(operator, w) == 2 ==> ps[0].name == "podplane-operator" && w.clusterKnown)
    && (|ps| == Due(operator, w) ==> ps[|ps| - 1].name == name && (w.required == Ok(true) ==> w.secretsReady))
  }

  predicate OnlyNames(plan: EnableSet, name: string) {
    (forall n | n in plan.apps :: n == name) && (forall n | n in plan.crds :: n == name)
  }

  /** What a plan shows about the component. */
  lemma PlanShows(c: Config, name: string, plan: EnableSet)
    requires Planned(Enabling(c, name, plan))
    ensures StandingOf(c, name).known
    ensures plan.IsEmpty() <==> StandingOf(c, name).done
    ensures OnlyNames(plan, name) <==> StandingOf(c, name).alone
  {
    forall x | Reaches(c, name, x)
      ensures Enabled(c, x) <==> x !in plan.apps && x !in plan.crds
    {
      assert c.Get(x).Some?;
      PlannedIsReached(c, name, plan, x);
    }
    if plan.apps != [] {
      assert plan.apps[0] in plan.apps;
    }
    if plan.crds != [] {
      assert plan.crds[0] in plan.crds;
    }
  }

  /** The plan for a component, and how the component stands. */
  method Resolve(c: Config, name: string) returns (r: Result<EnableSet>)
    ensures r.Ok? <==> StandingOf(c, name).known
    ensures r.Ok? ==> Planned(Enabling(c, name, r.value)) && (r.value.IsEmpty() <==> StandingOf(c, name).done)
    ensures r.Ok? ==> (OnlyNames(r.value, name) <==> StandingOf(c, name).alone)
  {
    r := ResolveEnable(c, name);
    if r.Ok? {
      PlanShows(c, name, r.value);
    }
  }

  lemma NothingMissing(seen: Config, now: Config, name: string, plan: EnableSet)
    requires PlanFor(seen, name, plan) && !ReachesUnknown(seen, name) && plan.IsEmpty()
    ensures AllEnabled(seen, now, name) <==> NoneLost(seen, now, name)
  {
    forall x | Reaches(seen, name, x)
      ensures Enabled(seen, x)
    {
      assert seen.Get(x).Some? && x !in plan.apps && x !in plan.crds;
    }
  }

  lemma OneMore(start: Config, ps: seq<Patch>, p: Patch)
    ensures After(start, ps + [p], |ps| + 1) == Patched(After(start, ps, |ps|), p)
  {
    SamePrefix(start, ps, ps + [p], |ps|);
  }

  lemma {:induction false} SamePrefix(start: Config, ps: seq<Patch>, qs: seq<Patch>, k: nat)
    requires k <= |ps| <= |qs| && ps[..k] == qs[..k]
    ensures After(start, ps, k) == After(start, qs, k)
  {
    if k > 0 {
      assert ps[k - 1] == ps[..k][k - 1] == qs[k - 1] && ps[..k - 1] == ps[..k][..k - 1] == qs[..k - 1];
      SamePrefix(start, ps, qs, k - 1);
    }
  }

  lemma SendsBoth(seen: Config, name: string, ps: seq<Patch>, p: Patch)
    requires OperatorSends(seen, ps) && p.Enabling? && p.seen == seen && p.name == name && Planned(p)
    ensures InstallSends(seen, name, ps + [p])
  {
  }

  /** The operator's patch alone is a beginning of an install. */
  lemma OperatorAlone(seen: Config, operator: Standing, name: string, w: World, ps: seq<Patch>)
    requires OperatorSends(seen, ps) && w.required.Ok?
    requires ps != [] ==> w.required.value && w.clusterKnown && !operator.done
    ensures InstallSends(seen, name, ps) && InOrder(Standing(true, false, true), operator, name, w, ps)
  {
  }

  lemma OwnLast(seen: Config, operator: Standing, w: World, ps: seq<Patch>, p: Patch)
    requires OperatorSends(seen, ps) && p.Enabling? && w.required.Ok?
    requires if w.required.value then Prepares(operator, w) && |ps| == (if operator.done then 0 else 1) else ps == []
    ensures InOrder(Standing(true, false, true), operator, p.name, w, ps + [p]) && |ps + [p]| == Due(operator, w)
  {
  }

  lemma Asked(alone: bool, operator: Standing, name: string, w: World, ps: seq<Patch>)
    requires (alone || w.confirmed) && InOrder(Standing(true, false, true), operator, name, w, ps)
    ensures InOrder(Standing(true, false, alone), operator, name, w, ps)
  {
  }

  /** What a command sends from a reading is a run of patches; when the reading is up to date, every state
      on the way is closed. */
  lemma CommandCloses(start: Config, seen: Config, name: string, ps: seq<Patch>, k: nat)
    requires InstallSends(seen, name, ps) || UninstallSends(seen, name, ps)
    requires Alike(seen, start) && k <= |ps|
    ensures Run(start, ps)
    ensures seen == start && Closed(start) ==> Closed(After(start, ps, k))
  {
    assert UninstallSends(seen, name, ps) && ps != [] ==> ps[0] in ps;
    if seen == start && Closed(start) {
      forall i | 0 <= i < |ps|
        ensures Undisturbed(start, ps, i)
      {
        assert ps[i] in ps && ps[i].seen == After(start, ps, 0);
      }
      UndisturbedRunsClose(start, ps, k);
    }
  }

  lemma SentAlone(seen: Config, now: Config, plan: EnableSet)
    requires Planned(Enabling(seen, OPERATOR, plan))
    ensures var p := Enabling(seen, OPERATOR, plan);
            OperatorSends(seen, [] + [p]) && After(now, [] + [p], 1) == Patched(now, p)
  {
    OneMore(now, [], Enabling(seen, OPERATOR, plan));
  }

  /** The operator's patch is made of what the reading had disabled, so it hides no loss. */
  lemma FinalEnables(seen: Config, now: Config, ops: seq<Patch>, name: string, plan: EnableSet)
    requires Alike(seen, now) && OperatorSends(seen, ops) && Planned(Enabling(seen, name, plan))
    ensures Alike(seen, After(now, ops, |ops|))
    ensures AllEnabled(seen, Patched(After(now, ops, |ops|), Enabling(seen, name, plan)), name) <==>
            NoneLost(seen, now, name)
  {
    var mid, p := After(now, ops, |ops|), Enabling(seen, name, plan);
    if ops != [] {
      assert ops[0] in ops && After(now, ops, 0) == now && mid == After(now, ops, 1) == Patched(now, ops[0]);
      PatchedAlike(now, ops[0]);
      forall x | Enabled(seen, x)
        ensures Enabled(mid, x) <==> Enabled(now, x)
      {
        EnabledAfter(seen, now, ops[0].plan, x);
      }
    }
    PlanEnables(mid, p);
  }

  lemma FlipNothing(c: Config, plan: EnableSet, enabled: bool)
    requires plan.IsEmpty()
    ensures Flip(c, plan, enabled) == c
  {
  }

  lemma FlippedAlike(seen: Config, now: Config, plan: EnableSet, enabled: bool)
    requires Alike(seen, now) && Known(seen, plan)
    ensures Known(now, plan) && Alike(seen, Flip(now, plan, enabled))
  {
  }

  lemma ReleaseFlipped(defaults: MP.Json, release: MP.Json, plan: EnableSet, enabled: bool)
    requires HelmValues.Readable(MP.Merge(defaults, release)) && Known(MP.ConfigOf(MP.Merge(defaults, release)), plan)
    ensures var after := MP.Merge(defaults, MP.Merge(release, MP.EnabledPatch(plan.apps, plan.crds, enabled)));
            && HelmValues.Readable(after)
            && MP.ConfigOf(after) == Flip(MP.ConfigOf(MP.Merge(defaults, release)), plan, enabled)
  {
    HelmValues.FlippedThroughDefaults(defaults, release, plan.apps, plan.crds, enabled);
  }

  /** The chart's defaults, the values of the deployed release and those of the release object; all three
      are written with the object's path to the values. */
  class Cluster {
    const defaults: MP.Json
    var deployed: MP.Json
    var release: MP.Json

    /** What a command sent. */
    ghost var sent: seq<Patch>

    constructor (defaults: MP.Json, release: MP.Json)
      ensures Valid() && this.defaults == defaults && this.release == release && sent == []
    {
      this.defaults, this.deployed, this.release, sent := defaults, release, release, [];
    }

    /** What a command reads. */
    function Seen(): Config
      reads this`deployed
    {
      MP.ConfigOf(MP.Merge(defaults, deployed))
    }

    /** What the release object asks for. */
    function Now(): Config
      reads this`release
    {
      MP.ConfigOf(MP.Merge(defaults, release))
    }

    predicate Readable()
      reads this`deployed
    {
      HelmValues.Readable(MP.Merge(defaults, deployed))
    }

    /** As long as the deployed values can be read, the object asks for the same components. */
    ghost predicate Valid()
      reads this`deployed, this`release
    {
      Readable() ==> HelmValues.Readable(MP.Merge(defaults, release)) && Alike(Seen(), Now())
    }

    /** The release is deployed. */
    method Reconcile()
      modifies this`deployed
      ensures Valid() && Seen() == Now()
    {
      deployed := release;
    }

    /** The patch command; nothing is sent for an empty plan. */
    method SetEnabled(plan: EnableSet, enabled: bool)
      requires Valid() && Readable() && Known(Seen(), plan)
      modifies this`release
      ensures Valid() && Now() == Flip(old(Now()), plan, enabled)
      ensures plan.IsEmpty() ==> release == old(release)
    {
      if |plan.apps| == 0 && |plan.crds| == 0 {
        FlipNothing(Now(), plan, enabled);
        return;
      }
      FlippedAlike(Seen(), Now(), plan, enabled);
      ReleaseFlipped(defaults, release, plan, enabled);
      var patch := MP.BuildEnabledPatch(plan.apps, plan.crds, enabled);
      release := MP.Merge(release, patch);
    }

    /** Sends a patch that was planned from what was read. */
    method Send(p: Patch)
      requires Valid() && Readable() && Planned(p) && p.seen == Seen()
      requires p.Enabling? ==> !p.plan.IsEmpty()
      modifies this`release, this`sent
      ensures Valid() && Now() == Patched(old(Now()), p) && sent == old(sent) + [p]
    {
      sent := sent + [p];
      match p
      case Enabling(_, _, plan) => SetEnabled(plan, true);
      case Disabling(_, name) => SetEnabled(EnableSet([name], []), false);
    }

    /** The operator's patch, unless it is up, and then the wait for the Secrets API. */
    method SendOperator(plan: EnableSet, w: World) returns (ok: bool)
      requires Valid() && Readable() && sent == [] && Planned(Enabling(Seen(), OPERATOR, plan))
      modifies this`release, this`sent
      ensures Valid() && OperatorSends(Seen(), sent) && Now() == After(old(Now()), sent, |sent|)
      ensures sent == [] ==> release == old(release)
      ensures |sent| == if !plan.IsEmpty() && w.operatorPatched then 1 else 0
      ensures ok <==> (plan.IsEmpty() || w.operatorPatched) && w.secretsReady
    {
      if !plan.IsEmpty() {
        if !w.operatorPatched {
          return false;
        }
        SentAlone(Seen(), Now(), plan);
        Send(Enabling(Seen(), OPERATOR, plan));
      }
      return w.secretsReady;
    }

    /** Brings up the Secrets API: the operator is enabled first, from the plan of the state read. */
    method EnableOperator(config: Config, w: World) returns (ok: bool)
      requires Valid() && Readable() && config == Seen() && sent == []
      modifies this`release, this`sent
      ensures Valid() && OperatorSends(config, sent) && Now() == After(old(Now()), sent, |sent|)
      ensures sent == [] ==> release == old(release)
      ensures var operator := StandingOf(config, OPERATOR);
              && (ok <==> Prepares(operator, w)) && (ok ==> |sent| == if operator.done then 0 else 1)
              && (sent != [] ==> w.clusterKnown && !operator.done)
    {
      if !w.clusterKnown {
        return false;
      }
      var operator := Resolve(config, OPERATOR);
      if operator.Err? {
        return false;
      }
      ok := SendOperator(operator.value, w);
    }

    method Install(name: string, w: World) returns (ok: bool)
      requires Valid() && sent == []
      modifies this`release, this`sent
      ensures Valid() && InstallSends(Seen(), name, sent) && Now() == After(old(Now()), sent, |sent|)
      ensures ok ==> (AllEnabled(Seen(), Now(), name) <==> NoneLost(Seen(), old(Now()), name))
      ensures !Readable() || ReachesUnknown(Seen(), name) ==> !ok && release == old(release)
      ensures var own, operator := StandingOf(Seen(), name), StandingOf(Seen(), OPERATOR);
              && (ok <==> (name == "podplane-operator" ==> w.operatorConfigValid) && Readable() && own.known &&
                          GoesThrough(own, operator, w))
              && InOrder(own, operator, name, w, sent) && (ok && !own.done ==> |sent| == Due(operator, w))
    {
      var plan := MakePlan(name, w);
      if plan.Err? {
        return false;
      }
      ok := CarryOut(Seen(), name, plan.value, w, StandingOf(Seen(), OPERATOR));
    }

    /** Checks and planning, before anything is asked or sent. */
    method MakePlan(name: string, w: World) returns (r: Result<EnableSet>)
      ensures r.Ok? <==> (name == OPERATOR ==> w.operatorConfigValid) && Readable() && StandingOf(Seen(), name).known
      ensures r.Ok? ==> Planned(Enabling(Seen(), name, r.value)) && r.value.IsEmpty() == StandingOf(Seen(), name).done
      ensures r.Ok? ==> (OnlyNames(r.value, name) <==> StandingOf(Seen(), name).alone)
    {
      if (name == OPERATOR && !w.operatorConfigValid) || !Readable() {
        return Err;
      }
      ReachesSelf(Seen(), name);
      if !Seen().Has(name) {
        return Err;
      }
      r := Resolve(Seen(), name);
    }

    /** Nothing to do, or the question and the patches. */
    method CarryOut(config: Config, name: string, plan: EnableSet, w: World, ghost operator: Standing)
      returns (ok: bool)
      requires Valid() && Readable() && config == Seen() && sent == [] && Planned(Enabling(config, name, plan))
      requires operator == StandingOf(config, OPERATOR)
      modifies this`release, this`sent
      ensures Valid() && InstallSends(config, name, sent) && Now() == After(old(Now()), sent, |sent|)
      ensures ok ==> (AllEnabled(config, Now(), name) <==> NoneLost(config, old(Now()), name))
      ensures var own := Standing(true, plan.IsEmpty(), OnlyNames(plan, name));
              && (ok <==> GoesThrough(own, operator, w))
              && InOrder(own, operator, name, w, sent) && (ok && !own.done ==> |sent| == Due(operator, w))
    {
      if plan.IsEmpty() {
        NothingMissing(config, Now(), name, plan);
        return true;
      }
      ok := AskAndSend(config, name, plan, w, operator);
    }

    /** The question comes before everything else. */
    method AskAndSend(config: Config, name: string, plan: EnableSet, w: World, ghost operator: Standing)
      returns (ok: bool)
      requires Valid() && Readable() && config == Seen() && sent == [] && Planned(Enabling(config, name, plan))
      requires !plan.IsEmpty() && operator == StandingOf(config, OPERATOR)
      modifies this`release, this`sent
      ensures Valid() && InstallSends(config, name, sent) && Now() == After(old(Now()), sent, |sent|)
      ensures ok ==> (AllEnabled(config, Now(), name) <==> NoneLost(config, old(Now()), name))
      ensures var own := Standing(true, false, OnlyNames(plan, name));
              && (ok <==> GoesThrough(own, operator, w))
              && InOrder(own, operator, name, w, sent) && (ok ==> |sent| == Due(operator, w))
    {
      if (!OnlyNames(plan, name) && !w.confirmed) || w.required.Err? {
        return false;
      }
      ok := SendAll(config, name, plan, w, operator);
      Asked(OnlyNames(plan, name), operator, name, w, sent);
    }

    /** The operator first when secrets are required; then the plan. */
    method SendAll(config: Config, name: string, plan: EnableSet, w: World, ghost operator: Standing)
      returns (ok: bool)
      requires Valid() && Readable() && config == Seen() && sent == [] && Planned(Enabling(config, name, plan))
      requires !plan.IsEmpty() && w.required.Ok? && operator == StandingOf(config, OPERATOR)
      modifies this`release, this`sent
      ensures Valid() && InstallSends(config, name, sent) && Now() == After(old(Now()), sent, |sent|)
      ensures ok ==> (AllEnabled(config, Now(), name) <==> NoneLost(config, old(Now()), name))
      ensures ok <==> (w.required.value ==> Prepares(operator, w)) && w.patched && w.settled
      ensures InOrder(Standing(true, false, true), operator, name, w, sent) && (ok ==> |sent| == Due(operator, w))
    {
      if w.required.value {
        ok := EnableOperator(config, w);
        if !ok {
          OperatorAlone(config, operator, name, w, sent);
          return;
        }
      }
      ghost var ops := sent;
      ok := SendOwn(config, name, plan, w, old(Now()));
      if w.patched {
        OwnLast(config, operator, w, ops, Enabling(config, name, plan));
      } else {
        OperatorAlone(config, operator, name, w, ops);
      }
    }

    /** The component's own patch and the wait for it. */
    method SendOwn(config: Config, name: string, plan: EnableSet, w: World, ghost start: Config) returns (ok: bool)
      requires Valid() && Readable() && config == Seen() && Alike(config, start)
      requires Planned(Enabling(config, name, plan)) && !plan.IsEmpty()
      requires OperatorSends(config, sent) && Now() == After(start, sent, |sent|)
      modifies this`release, this`sent
      ensures Valid() && InstallSends(config, name, sent) && Now() == After(start, sent, |sent|)
      ensures ok ==> (AllEnabled(config, Now(), name) <==> NoneLost(config, start, name))
      ensures ok <==> w.patched && w.settled
      ensures sent == if w.patched then old(sent) + [Enabling(config, name, plan)] else old(sent)
    {
      if !w.patched {
        return false;
      }
      FinalPatch(config, name, plan, start);
      return w.settled;
    }

    method FinalPatch(config: Config, name: string, plan: EnableSet, ghost start: Config)
      requires Valid() && Readable() && config == Seen() && Alike(config, start)
      requires Planned(Enabling(config, name, plan)) && !plan.IsEmpty()
      requires OperatorSends(config, sent) && Now() == After(start, sent, |sent|)
      modifies this`release, this`sent
      ensures Valid() && InstallSends(config, name, sent) && Now() == After(start, sent, |sent|)
      ensures AllEnabled(config, Now(), name) <==> NoneLost(config, start, name)
      ensures sent == old(sent) + [Enabling(config, name, plan)]
    {
      var p := Enabling(config, name, plan);
      FinalEnables(config, start, sent, name, plan);
      OneMore(start, sent, p);
      SendsBoth(config, name, sent, p);
      Send(p);
    }

    method Uninstall(name: string, confirmed: bool, patched: bool) returns (ok: bool)
      requires Valid() && sent == []
      modifies this`release, this`sent
      ensures Valid() && UninstallSends(Seen(), name, sent) && Now() == After(old(Now()), sent, |sent|)
      ensures ok ==> name in Seen().apps && !Seen().apps[name].core
      ensures ok && Seen().apps[name].enabled ==> name in Now().apps && !Now().apps[name].enabled
      ensures ok && !Seen().apps[name].enabled ==> release == old(release)
      ensures !Readable() || Refused(Seen(), name) ==> !ok && release == old(release)
      ensures ok <==> Readable() && !(Refused(Seen(), name) || (Seen().apps[name].enabled && !(confirmed && patched)))
      ensures sent != [] ==> confirmed
    {
      if !Readable() {
        return false;
      }
      var config := Seen();
      if !config.Has(name) || name !in config.apps || config.apps[name].core {
        return false;
      }
      if !config.apps[name].enabled {
        return true;
      }
      var dependents := EnabledDependents(config, name);
      if |dependents| > 0 {
        assert dependents[0] in dependents;
        return false;
      }
      if !confirmed || !patched {
        return false;
      }
      Send(Disabling(config, name));
      return true;
    }
  }
}
