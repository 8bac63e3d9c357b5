/** Deleting a cluster: what is done, in which order, under any answers of the provider and the user. */
module ClusterDelete {
  import opened Results
  import opened SortedNames
  import opened MergePatch

  // ---- shard configs

  const GROUPS := "groups"
  const SIZE := "size"
  const ZERO := Num(0.0)

  predicate NonZero(group: Json) {
    group.Obj? && !(SIZE in group.fields && group.fields[SIZE] == ZERO)
  }

  ghost predicate AnyNonZero(tenant: Json) {
    exists g :: g in Fields(tenant) && NonZero(Fields(tenant)[g])
  }

  function ZeroGroup(group: Json): Json {
    if group.Obj? then Obj(group.fields[SIZE := ZERO]) else group
  }

  function ZeroTenant(tenant: Json): Json {
    if tenant.Obj? then Obj(map g | g in tenant.fields :: ZeroGroup(tenant.fields[g])) else tenant
  }

  function ZeroGroups(groups: map<string, Json>): map<string, Json> {
    map t | t in groups :: ZeroTenant(groups[t])
  }

  function ZeroDoc(doc: Json): Json {
    if doc.Obj? && GROUPS in doc.fields && doc.fields[GROUPS].Obj?
    then Obj(doc.fields[GROUPS := Obj(ZeroGroups(doc.fields[GROUPS].fields))])
    else doc
  }

  function GroupAt(doc: Json, t: string, g: string): Option<Json> {
    if doc.Obj? && GROUPS in doc.fields && t in Fields(doc.fields[GROUPS]) &&
       g in Fields(Fields(doc.fields[GROUPS])[t])
    then Some(Fields(Fields(doc.fields[GROUPS])[t])[g])
    else None
  }

  /** Paths below a group. */
  lemma LookupInGroup(doc: Json, t: string, g: string, rest: seq<string>)
    ensures Lookup(doc, [GROUPS, t, g] + rest) ==
            match GroupAt(doc, t, g)
            case Some(group) => Lookup(group, rest)
            case None => None
  {
    var path := [GROUPS, t, g] + rest;
    assert path[1..] == [t, g] + rest && ([t, g] + rest)[1..] == [g] + rest && ([g] + rest)[1..] == rest;
    if doc.Obj? && GROUPS in doc.fields {
      var groups := doc.fields[GROUPS];
      assert Lookup(doc, path) == Lookup(groups, [t, g] + rest);
      if t in Fields(groups) {
        var tenant := groups.fields[t];
        assert Lookup(groups, [t, g] + rest) == Lookup(tenant, [g] + rest);
      }
    }
  }

  /** Some group is an object whose size is not zero. */
  ghost predicate HasNonZero(doc: Json) {
    exists t, g :: GroupAt(doc, t, g).Some? && NonZero(GroupAt(doc, t, g).value)
  }

  /** Sets the sizes and says whether anything changed. A document that is neither an object nor null is
      refused. */
  method ZeroShardConfig(doc: Json) returns (r: Result<(Json, bool)>)
    ensures r.Err? <==> !doc.Obj? && !doc.Null?
    ensures r.Ok? ==> r.value.0 == ZeroDoc(doc) && (r.value.1 <==> HasNonZero(doc))
  {
    if !doc.Obj? && !doc.Null? {
      return Err;
    }
    NonZeroInGroups(doc);
    var groups := if doc.Obj? && GROUPS in doc.fields then Fields(doc.fields[GROUPS]) else map[];
    var next, changed := ZeroTenants(groups);
    if !changed {
      UnchangedDoc(doc);
      return Ok((doc, false));
    }
    return Ok((Obj(doc.fields[GROUPS := Obj(next)]), true));
  }

  method ZeroTenants(groups: map<string, Json>) returns (next: map<string, Json>, changed: bool)
    ensures next == ZeroGroups(groups)
    ensures changed <==> exists t :: t in groups && AnyNonZero(groups[t])
  {
    next, changed := groups, false;
    var rest := groups.Keys;
    while rest != {}
      invariant rest <= groups.Keys == next.Keys
      invariant forall t :: t in groups ==> next[t] == if t in rest then groups[t] else ZeroTenant(groups[t])
      invariant changed <==> exists t :: t in groups && t !in rest && AnyNonZero(groups[t])
      decreases rest
    {
      var t :| t in rest;
      rest := rest - {t};
      var tenant, touched := ZeroOneTenant(groups[t]);
      next := next[t := tenant];
      changed := changed || touched;
    }
  }

  lemma UnchangedGroup(group: Json)
    requires !NonZero(group)
    ensures ZeroGroup(group) == group
  {
    if group.Obj? {
      assert group.fields[SIZE := ZERO] == group.fields;
    }
  }

  lemma AllGroups(tenant: Json, next: map<string, Json>)
    requires next.Keys == Fields(tenant).Keys
    requires forall g :: g in Fields(tenant) ==> next[g] == ZeroGroup(Fields(tenant)[g])
    ensures tenant.Obj? ==> next == ZeroTenant(tenant).fields
  {
  }

  method ZeroOneTenant(tenant: Json) returns (r: Json, changed: bool)
    ensures r == ZeroTenant(tenant)
    ensures changed <==> AnyNonZero(tenant)
  {
    var groups := Fields(tenant);
    var next, rest := groups, groups.Keys;
    changed := false;
    while rest != {}
      invariant rest <= groups.Keys == next.Keys
      invariant forall g :: g in groups ==> next[g] == if g in rest then groups[g] else ZeroGroup(groups[g])
      invariant changed <==> exists g :: g in groups && g !in rest && NonZero(groups[g])
      decreases rest
    {
      var g :| g in rest;
      rest := rest - {g};
      if NonZero(groups[g]) {
        next := next[g := Obj(groups[g].fields[SIZE := ZERO])];
        changed := true;
      } else {
        UnchangedGroup(groups[g]);
      }
    }
    AllGroups(tenant, next);
    r := if tenant.Obj? then Obj(next) else tenant;
  }

  lemma NonZeroInGroups(doc: Json)
    ensures var groups := if doc.Obj? && GROUPS in doc.fields then Fields(doc.fields[GROUPS]) else map[];
            HasNonZero(doc) <==> exists t :: t in groups && AnyNonZero(groups[t])
  {
    var groups := if doc.Obj? && GROUPS in doc.fields then Fields(doc.fields[GROUPS]) else map[];
    assert forall t, g :: GroupAt(doc, t, g) ==
                          if t in groups && g in Fields(groups[t]) then Some(Fields(groups[t])[g]) else None;
  }

  lemma UnchangedTenant(tenant: Json)
    requires !AnyNonZero(tenant)
    ensures ZeroTenant(tenant) == tenant
  {
    if tenant.Obj? {
      forall g | g in tenant.fields
        ensures ZeroGroup(tenant.fields[g]) == tenant.fields[g]
      {
        assert g in Fields(tenant) && Fields(tenant)[g] == tenant.fields[g];
        UnchangedGroup(tenant.fields[g]);
      }
      AllGroups(tenant, tenant.fields);
    }
  }

  /** Without a group to change the document stays as it is. */
  lemma UnchangedDoc(doc: Json)
    requires !HasNonZero(doc)
    ensures ZeroDoc(doc) == doc
  {
    NonZeroInGroups(doc);
    if doc.Obj? && GROUPS in doc.fields && doc.fields[GROUPS].Obj? {
      var groups := doc.fields[GROUPS].fields;
      forall t | t in groups
        ensures ZeroTenant(groups[t]) == groups[t]
      {
        UnchangedTenant(groups[t]);
      }
      assert ZeroGroups(groups) == groups;
      assert doc.fields[GROUPS := Obj(groups)] == doc.fields;
    }
  }

  /** Afterwards every group that is an object has size zero, and its other entries. */
  lemma ZeroedGroup(doc: Json, t: string, g: string)
    ensures GroupAt(ZeroDoc(doc), t, g) ==
            match GroupAt(doc, t, g)
            case Some(group) => Some(ZeroGroup(group))
            case None => None
    ensures GroupAt(doc, t, g).Some? && GroupAt(doc, t, g).value.Obj? ==>
              Lookup(ZeroDoc(doc), ["groups", t, g, "size"]) == Some(Num(0.0))
  {
    LookupInGroup(ZeroDoc(doc), t, g, [SIZE]);
    assert [GROUPS, t, g] + [SIZE] == [GROUPS, t, g, SIZE] && [SIZE][1..] == [];
  }

  /** Nothing else changes: every path that is neither a group's size nor above or below one. */
  lemma ZeroKeepsOthers(doc: Json, path: seq<string>)
    requires path != [] && (path[0] == "groups" ==> |path| > 3 && path[3] != "size")
    ensures Lookup(ZeroDoc(doc), path) == Lookup(doc, path)
  {
    if path[0] == GROUPS {
      var t, g, rest := path[1], path[2], path[3..];
      assert path == [GROUPS, t, g] + rest;
      LookupInGroup(doc, t, g, rest);
      LookupInGroup(ZeroDoc(doc), t, g, rest);
      ZeroedGroup(doc, t, g);
    }
  }

  /** A second run finds nothing to change. */
  lemma ZeroTwice(doc: Json)
    ensures !HasNonZero(ZeroDoc(doc)) && ZeroDoc(ZeroDoc(doc)) == ZeroDoc(doc)
  {
    forall t, g | GroupAt(ZeroDoc(doc), t, g).Some?
      ensures !NonZero(GroupAt(ZeroDoc(doc), t, g).value)
    {
      ZeroedGroup(doc, t, g);
    }
    UnchangedDoc(ZeroDoc(doc));
  }

  // ---- the workflow

  datatype Instance = Instance(id: string)

  datatype Question = TerminateRemaining | DestroyResources | TerminateDangling

  datatype Answer = Yes | No | Failed

  /** deadline says that the error was a passed deadline. */
  datatype Listing = Listing(instances: seq<Instance>) | Unlisted(deadline: bool)

  datatype Event =
    | ReadOutputs(ok: bool)
    | Scaled(shard: string, key: string, ok: bool)
    | Listed(listing: Listing)
    | Asked(question: Question, answer: Answer)
    | Terminated(instances: seq<Instance>, ok: bool)
    | Destroyed(ok: bool)

  /** Bucket, and config key by shard. */
  datatype Outputs = Outputs(bucket: string, shards: map<string, string>)

  ghost predicate Complete(o: Outputs) {
    o.bucket != "" && o.shards != map[] && forall s :: s in o.shards ==> o.shards[s] != ""
  }

  /** What is true of the two contexts after a listing and after the pause that follows it. */
  datatype Clock = Clock(cancelled: bool, expired: bool, pause: Pause)
  datatype Pause = Elapsed | Expired | Cancelled

  /** The outside world answers the n-th call by its n-th answers, whatever they are. polls is how many
      listings fit before the deadline of one wait. */
  class World {
    const outputs: Result<Outputs>
    const works: nat -> bool
    const listings: nat -> Listing
    const clocks: nat -> Clock
    const answers: nat -> Answer
    const polls: nat

    var objects: map<string, Json>
    var calls: nat
    ghost var log: seq<Event>

    constructor (outputs: Result<Outputs>, works: nat -> bool, listings: nat -> Listing, clocks: nat -> Clock,
                 answers: nat -> Answer, polls: nat, objects: map<string, Json>)
      ensures this.outputs == outputs && log == [] && this.objects == objects
    {
      this.objects := objects;
      this.outputs, this.works, this.listings, this.clocks := outputs, works, listings, clocks;
      this.answers, this.polls, calls, log := answers, polls, 0, [];
    }

    method OutputJSON() returns (r: Result<Outputs>)
      modifies this`calls, this`log
      ensures r == outputs && log == old(log) + [ReadOutputs(r.Ok?)]
    {
      r := outputs;
      calls, log := calls + 1, log + [ReadOutputs(r.Ok?)];
    }

    method UpdateObject(shard: string, key: string) returns (ok: bool)
      modifies this
      ensures log == old(log) + [Scaled(shard, key, ok)]
      ensures !ok ==> objects == old(objects)
      ensures ok ==> key in old(objects) && objects == old(objects)[key := ZeroDoc(old(objects)[key])]
    {
      ok := works(calls) && key in objects;
      if ok {
        var r := ZeroShardConfig(objects[key]);
        ok := r.Ok?;
        if ok {
          objects := objects[key := r.value.0];
        }
      }
      calls, log := calls + 1, log + [Scaled(shard, key, ok)];
    }

    method ManagedInstances() returns (r: Listing, clock: Clock)
      modifies this`calls, this`log
      ensures log == old(log) + [Listed(r)] && calls == old(calls) + 1
      ensures r == listings(old(calls)) && clock == clocks(old(calls))
    {
      r, clock := listings(calls), clocks(calls);
      calls, log := calls + 1, log + [Listed(r)];
    }

    method Confirm(q: Question) returns (a: Answer)
      modifies this`calls, this`log
      ensures log == old(log) + [Asked(q, a)]
    {
      a := answers(calls);
      calls, log := calls + 1, log + [Asked(q, a)];
    }

    method Terminate(instances: seq<Instance>) returns (ok: bool)
      modifies this`calls, this`log
      ensures log == old(log) + [Terminated(instances, ok)]
    {
      ok := works(calls);
      calls, log := calls + 1, log + [Terminated(instances, ok)];
    }

    method Destroy() returns (ok: bool)
      modifies this`calls, this`log
      ensures log == old(log) + [Destroyed(ok)]
    {
      ok := works(calls);
      calls, log := calls + 1, log + [Destroyed(ok)];
    }
  }

  // ---- what the objects show

  ghost predicate ZeroedAt(objects: map<string, Json>, key: string) {
    key in objects && !HasNonZero(objects[key])
  }

  /** These shards ask for no instance any more. */
  ghost predicate ZeroedFor(objects: map<string, Json>, names: seq<string>, shards: map<string, string>) {
    forall n :: n in names && n in shards ==> ZeroedAt(objects, shards[n])
  }

  /** Compared with before, only shard configs differ, and those only in their zeroed sizes. */
  ghost predicate OnlyZeroed(objects: map<string, Json>, before: map<string, Json>, shards: map<string, string>) {
    && objects.Keys == before.Keys
    && forall key :: key in before ==>
         objects[key] == before[key] || (key in shards.Values && objects[key] == ZeroDoc(before[key]))
  }

  lemma ZeroedMore(start: map<string, Json>, before: map<string, Json>, objects: map<string, Json>,
                   done: seq<string>, n: string, shards: map<string, string>)
    requires OnlyZeroed(before, start, shards) && ZeroedFor(before, done, shards) && n in shards
    requires shards[n] in before && objects == before[shards[n] := ZeroDoc(before[shards[n]])]
    ensures OnlyZeroed(objects, start, shards) && ZeroedFor(objects, done + [n], shards)
  {
    var key := shards[n];
    ZeroTwice(before[key]);
    ZeroTwice(start[key]);
    assert forall k :: ZeroedAt(before, k) ==> ZeroedAt(objects, k);
  }

  // ---- what the log of a run shows

  /** The instances of the last successful listing. */
  ghost function LastListed(log: seq<Event>): Option<seq<Instance>>
    decreases |log|
  {
    if log == [] then None
    else
      var e := log[|log| - 1];
      if e.Listed? && e.listing.Listing? then Some(e.listing.instances) else LastListed(log[..|log| - 1])
  }

  ghost function Scalings(names: seq<string>, shards: map<string, string>): seq<Event>
    requires forall n :: n in names ==> n in shards
  {
    seq(|names|, i requires 0 <= i < |names| => Scaled(names[i], shards[names[i]], true))
  }

  /** The run starts by reading the outputs and scaling every shard, in order. */
  ghost predicate AllScaled(log: seq<Event>, names: seq<string>, shards: map<string, string>) {
    (forall n :: n in names ==> n in shards) && [ReadOutputs(true)] + Scalings(names, shards) <= log
  }

  /** A failure or a refusal. */
  predicate Refused(e: Event) {
    match e
    case ReadOutputs(ok) => !ok
    case Scaled(_, _, ok) => !ok
    case Listed(_) => false
    case Asked(_, answer) => answer != Yes
    case Terminated(_, ok) => !ok
    case Destroyed(ok) => !ok
  }

  ghost predicate DestroyedIn(log: seq<Event>) {
    exists j :: 0 <= j < |log| && log[j].Destroyed?
  }

  /** Nothing follows a failure or a refusal. Destroy comes once, after all shards were scaled, right
      after a listing came back empty and the user said yes. A termination follows a yes to the question
      of its phase and names exactly the instances listed last. */
  ghost predicate SafeAt(log: seq<Event>, i: nat, names: seq<string>, shards: map<string, string>)
    requires i < |log|
  {
    var before := log[..i];
    && (i > 0 ==> !Refused(log[i - 1]))
    && match log[i]
       case Destroyed(_) =>
         && i >= 2 && log[i - 1] == Asked(DestroyResources, Yes) && log[i - 2] == Listed(Listing([]))
         && AllScaled(before, names, shards) && !DestroyedIn(before)
       case Terminated(instances, _) =>
         && i >= 1 && log[i - 1] == Asked(if DestroyedIn(before) then TerminateDangling else TerminateRemaining, Yes)
         && instances != [] && LastListed(before) == Some(instances)
         && AllScaled(before, names, shards)
       case _ => true
  }

  ghost predicate Safe(log: seq<Event>, names: seq<string>, shards: map<string, string>) {
    forall i :: 0 <= i < |log| ==> SafeAt(log, i, names, shards)
  }

  lemma SafeExtended(log: seq<Event>, e: Event, names: seq<string>, shards: map<string, string>)
    requires Safe(log, names, shards) && SafeAt(log + [e], |log|, names, shards)
    ensures Safe(log + [e], names, shards)
  {
    var next := log + [e];
    forall i | 0 <= i < |next|
      ensures SafeAt(next, i, names, shards)
    {
      if i < |log| {
        assert SafeAt(log, i, names, shards) && next[..i] == log[..i];
      }
    }
  }

  /** Where a run may go on: everything so far in order, nothing refused. */
  ghost predicate GoingOn(log: seq<Event>, names: seq<string>, shards: map<string, string>) {
    Safe(log, names, shards) && AllScaled(log, names, shards) && !Refused(log[|log| - 1])
  }

  /** One more call, with the parts of SafeAt that depend on the kind of call. */
  lemma OneMore(log: seq<Event>, e: Event, names: seq<string>, shards: map<string, string>)
    requires GoingOn(log, names, shards)
    requires e.Destroyed? ==>
               |log| >= 2 && log[|log| - 1] == Asked(DestroyResources, Yes) && log[|log| - 2] == Listed(Listing([])) &&
               !DestroyedIn(log)
    requires e.Terminated? ==>
               && log[|log| - 1] == Asked(if DestroyedIn(log) then TerminateDangling else TerminateRemaining, Yes)
               && e.instances != [] && LastListed(log) == Some(e.instances)
    ensures Safe(log + [e], names, shards) && AllScaled(log + [e], names, shards)
    ensures !Refused(e) ==> GoingOn(log + [e], names, shards)
    ensures DestroyedIn(log + [e]) <==> DestroyedIn(log) || e.Destroyed?
    ensures LastListed(log + [e]) ==
            if e.Listed? && e.listing.Listing? then Some(e.listing.instances) else LastListed(log)
  {
    var next := log + [e];
    assert next[..|log|] == log;
    SafeExtended(log, e, names, shards);
    if DestroyedIn(log) {
      var j :| 0 <= j < |log| && log[j].Destroyed?;
      assert next[j].Destroyed?;
    } else if e.Destroyed? {
      assert next[|log|].Destroyed?;
    }
  }

  // ---- the code

  method ParseOutputs(o: Outputs) returns (ok: bool)
    ensures ok <==> Complete(o)
  {
    ok := o.bucket != "" && o.shards != map[] && forall s | s in o.shards :: o.shards[s] != "";
  }

  lemma ScalingIsSafe(done: seq<string>, last: Event, names: seq<string>, shards: map<string, string>)
    requires (forall n :: n in done ==> n in shards) && last.Scaled?
    ensures var log := [ReadOutputs(true)] + Scalings(done, shards);
            && Safe(log, names, shards) && !DestroyedIn(log) && !Refused(log[|log| - 1])
            && Safe(log + [last], names, shards) && !DestroyedIn(log + [last])
  {
    var log := [ReadOutputs(true)] + Scalings(done, shards) + [last];
    forall i | 0 <= i < |log|
      ensures SafeAt(log, i, names, shards)
    {
    }
    var before := log[..|log| - 1];
    assert before == [ReadOutputs(true)] + Scalings(done, shards);
    forall i | 0 <= i < |before|
      ensures SafeAt(before, i, names, shards)
    {
    }
  }

  lemma ScalingsSnoc(done: seq<string>, n: string, shards: map<string, string>)
    requires forall x :: x in done + [n] ==> x in shards
    ensures (forall x :: x in done ==> x in shards) && n in shards
    ensures Scalings(done + [n], shards) == Scalings(done, shards) + [Scaled(n, shards[n], true)]
  {
    assert forall x :: x in done || x == n ==> x in done + [n];
  }

  /** Sends the change to every shard in order, and stops at the first failure. */
  method ScaleShards(w: World, shards: map<string, string>) returns (ok: bool, names: seq<string>)
    requires w.log == [ReadOutputs(true)]
    modifies w
    ensures SortedOf(names, shards.Keys)
    ensures Safe(w.log, names, shards) && !DestroyedIn(w.log)
    ensures ok ==> GoingOn(w.log, names, shards) && ZeroedFor(w.objects, names, shards)
    ensures OnlyZeroed(w.objects, old(w.objects), shards)
    ensures !ok ==> w.log != [] && Refused(w.log[|w.log| - 1])
  {
    names := SortNames(shards.Keys);
    assert forall n :: n in names ==> n in shards;
    for k := 0 to |names|
      invariant w.log == [ReadOutputs(true)] + Scalings(names[..k], shards)
      invariant OnlyZeroed(w.objects, old(w.objects), shards)
      invariant ZeroedFor(w.objects, names[..k], shards)
    {
      assert names[k] in names;
      ghost var before := w.objects;
      ok := w.UpdateObject(names[k], shards[names[k]]);
      if !ok {
        ScalingIsSafe(names[..k], Scaled(names[k], shards[names[k]], false), names, shards);
        return;
      }
      assert names[..k + 1] == names[..k] + [names[k]];
      ScalingsSnoc(names[..k], names[k], shards);
      ZeroedMore(old(w.objects), before, w.objects, names[..k], names[k], shards);
    }
    assert names[..|names|] == names;
    ScalingIsSafe(names, Scaled("", "", true), names, shards);
    ok := true;
  }

  /** The last call is a reason to stop: a failure or a refusal, or a listing that is not empty, not there, or
      overtaken by a cancellation. */
  ghost predicate Stopped(w: World)
    reads w
  {
    w.log != [] &&
    var last := w.log[|w.log| - 1];
    Refused(last) ||
      (last.Listed? && w.calls > 0 && (last.listing != Listing([]) || w.clocks(w.calls - 1).cancelled))
  }

  /** The n-th call gives no reason to stop waiting: instances are left, nothing is cancelled, and the pause
      ends before the deadline. */
  predicate KeepsOn(w: World, n: nat) {
    && w.listings(n).Listing? && w.listings(n).instances != []
    && !w.clocks(n).cancelled && w.clocks(n).pause.Elapsed?
  }

  /** The instances listed by the call before the n-th one of a wait. */
  function LeftBefore(w: World, first: nat, n: nat): seq<Instance> {
    if n > first && w.listings(n - 1).Listing? then w.listings(n - 1).instances else []
  }

  /** What a wait makes of its last call, and of what was left at the call before. */
  function WaitResult(w: World, n: nat, before: seq<Instance>): Result<seq<Instance>> {
    var listing, clock := w.listings(n), w.clocks(n);
    if clock.cancelled then Err
    else if listing.Unlisted? then if clock.expired && listing.deadline && before != [] then Ok(before) else Err
    else if listing.instances != [] && clock.pause.Cancelled? then Err
    else Ok(listing.instances)
  }

  /** Polls until no instance is left or the wait is over. An empty result means that a listing just
      came back empty; a non-empty one is the last successful listing. */
  method WaitForManagedInstances(w: World, ghost names: seq<string>, ghost shards: map<string, string>)
    returns (r: Result<seq<Instance>>)
    requires GoingOn(w.log, names, shards)
    modifies w`calls, w`log
    ensures GoingOn(w.log, names, shards) && (DestroyedIn(w.log) <==> old(DestroyedIn(w.log)))
    ensures |old(w.log)| < |w.log| && old(w.log) == w.log[..|old(w.log)|]
    ensures forall i :: |old(w.log)| <= i < |w.log| ==> w.log[i].Listed?
    ensures r.Ok? && r.value == [] ==> w.log[|w.log| - 1] == Listed(Listing([]))
    ensures r.Ok? && r.value != [] ==> LastListed(w.log) == Some(r.value)
    ensures old(w.calls) < w.calls <= old(w.calls) + w.polls + 1
    ensures forall n :: old(w.calls) <= n < w.calls - 1 ==> KeepsOn(w, n)
    ensures KeepsOn(w, w.calls - 1) ==> w.calls == old(w.calls) + w.polls + 1
    ensures r == WaitResult(w, w.calls - 1, LeftBefore(w, old(w.calls), w.calls - 1))
    ensures w.log[|w.log| - 1] == Listed(w.listings(w.calls - 1))
  {
    var remaining: seq<Instance> := [];
    var polls := w.polls;
    while true
      invariant GoingOn(w.log, names, shards) && (DestroyedIn(w.log) <==> old(DestroyedIn(w.log)))
      invariant |old(w.log)| <= |w.log| && old(w.log) == w.log[..|old(w.log)|]
      invariant forall i :: |old(w.log)| <= i < |w.log| ==> w.log[i].Listed?
      invariant remaining != [] ==> LastListed(w.log) == Some(remaining)
      invariant w.calls == old(w.calls) + (w.polls - polls) && 0 <= polls <= w.polls
      invariant forall n :: old(w.calls) <= n < w.calls ==> KeepsOn(w, n)
      invariant remaining == LeftBefore(w, old(w.calls), w.calls)
      decreases polls
    {
      ghost var before := w.log;
      var listing, clock := w.ManagedInstances();
      OneMore(before, Listed(listing), names, shards);
      if clock.cancelled {
        return Err;
      }
      if listing.Unlisted? {
        if clock.expired && listing.deadline && |remaining| > 0 {
          return Ok(remaining);
        }
        return Err;
      }
      remaining := listing.instances;
      if |remaining| == 0 {
        return Ok([]);
      }
      if clock.pause.Cancelled? {
        return Err;
      }
      if clock.pause.Expired? || polls == 0 {
        return Ok(remaining);
      }
      polls := polls - 1;
    }
  }

  /** Terminates what is still there after scale-down, when the user agrees, and waits again. */
  method TerminateFirst(w: World, remaining: seq<Instance>, ghost names: seq<string>, ghost shards: map<string, string>)
    returns (ok: bool)
    requires GoingOn(w.log, names, shards) && !DestroyedIn(w.log)
    requires remaining != [] && LastListed(w.log) == Some(remaining)
    modifies w`calls, w`log
    ensures Safe(w.log, names, shards) && !DestroyedIn(w.log)
    ensures ok ==> GoingOn(w.log, names, shards) && w.log[|w.log| - 1] == Listed(Listing([]))
    ensures !ok ==> Stopped(w)
  {
    ghost var before := w.log;
    var answer := w.Confirm(TerminateRemaining);
    OneMore(before, Asked(TerminateRemaining, answer), names, shards);
    if answer != Yes {
      return false;
    }
    ghost var asked := w.log;
    ok := w.Terminate(remaining);
    OneMore(asked, Terminated(remaining, ok), names, shards);
    if !ok {
      return;
    }
    var left := WaitForManagedInstances(w, names, shards);
    return left.Ok? && |left.value| == 0;
  }

  /** Destroys after a final confirmation, then offers to terminate what appeared meanwhile. */
  method DestroyAndSweep(w: World, ghost names: seq<string>, ghost shards: map<string, string>) returns (ok: bool)
    requires GoingOn(w.log, names, shards) && !DestroyedIn(w.log)
    requires w.log[|w.log| - 1] == Listed(Listing([]))
    modifies w`calls, w`log
    ensures Safe(w.log, names, shards)
    ensures ok ==> AllScaled(w.log, names, shards)
    ensures ok <==> DestroyedIn(w.log) && Finished(w.log)
    ensures !ok ==> Stopped(w)
  {
    ghost var listed := w.log;
    var answer := w.Confirm(DestroyResources);
    OneMore(listed, Asked(DestroyResources, answer), names, shards);
    if answer != Yes {
      return false;
    }
    ghost var asked := w.log;
    var destroyed := w.Destroy();
    OneMore(asked, Destroyed(destroyed), names, shards);
    if !destroyed {
      return false;
    }
    ok := Sweep(w, names, shards);
  }

  method Sweep(w: World, ghost names: seq<string>, ghost shards: map<string, string>) returns (ok: bool)
    requires GoingOn(w.log, names, shards) && DestroyedIn(w.log)
    modifies w`calls, w`log
    ensures Safe(w.log, names, shards) && AllScaled(w.log, names, shards) && DestroyedIn(w.log)
    ensures ok <==> Finished(w.log)
    ensures !ok ==> Stopped(w)
  {
    ghost var before := w.log;
    var dangling, _ := w.ManagedInstances();
    OneMore(before, Listed(dangling), names, shards);
    if dangling.Unlisted? {
      return false;
    }
    if |dangling.instances| == 0 {
      return true;
    }
    ghost var swept := w.log;
    var answer := w.Confirm(TerminateDangling);
    OneMore(swept, Asked(TerminateDangling, answer), names, shards);
    if answer != Yes {
      return answer == No;
    }
    ghost var asked := w.log;
    ok := w.Terminate(dangling.instances);
    OneMore(asked, Terminated(dangling.instances, ok), names, shards);
  }

  /** How a successful run ends: nothing left, the rest left alone on request, or the rest terminated. */
  ghost predicate Finished(log: seq<Event>) {
    log != [] &&
    var last := log[|log| - 1];
    last == Listed(Listing([])) || last == Asked(TerminateDangling, No) || (last.Terminated? && last.ok)
  }

  /** For every world the run is safe; a run that succeeds has scaled every shard and destroyed, and one that
      does not ends at a reason to stop. */
  method Delete(w: World) returns (ok: bool, ghost names: seq<string>)
    requires w.log == []
    modifies w
    ensures w.outputs.Ok? ==> OnlyZeroed(w.objects, old(w.objects), w.outputs.value.shards)
    ensures w.outputs.Err? ==> !ok && w.log == [ReadOutputs(false)]
    ensures w.outputs.Ok? && !Complete(w.outputs.value) ==> !ok && w.log == [ReadOutputs(true)]
    ensures w.outputs.Ok? && Complete(w.outputs.value) ==>
              && SortedOf(names, w.outputs.value.shards.Keys) && Safe(w.log, names, w.outputs.value.shards)
              && (DestroyedIn(w.log) ==> ZeroedFor(w.objects, names, w.outputs.value.shards))
              && (ok ==> AllScaled(w.log, names, w.outputs.value.shards))
              && (ok <==> DestroyedIn(w.log) && Finished(w.log)) && (!ok ==> Stopped(w))
  {
    ok, names := false, [];
    var outputs := w.OutputJSON();
    if outputs.Err? {
      return;
    }
    ok := ParseOutputs(outputs.value);
    if !ok {
      return;
    }
    var shards := outputs.value.shards;
    var order: seq<string>;
    ok, order := ScaleShards(w, shards);
    names := order;
    if !ok {
      return;
    }
    var remaining := WaitForManagedInstances(w, order, shards);
    if remaining.Err? {
      return false, names;
    }
    if |remaining.value| > 0 {
      ok := TerminateFirst(w, remaining.value, order, shards);
      if !ok {
        return;
      }
    }
    ok := DestroyAndSweep(w, order, shards);
  }

  lemma DestroyedBefore(log: seq<Event>, i: nat, j: nat)
    requires i < j <= |log| && log[i].Destroyed?
    ensures DestroyedIn(log[..j])
  {
    assert log[..j][i].Destroyed?;
  }

  /** Destroy happens at most once in a safe log. */
  lemma DestroyedOnce(log: seq<Event>, i: nat, j: nat, names: seq<string>, shards: map<string, string>)
    requires Safe(log, names, shards) && i < |log| && j < |log| && log[i].Destroyed? && log[j].Destroyed?
    ensures i == j
  {
    assert SafeAt(log, i, names, shards) && SafeAt(log, j, names, shards);
    if i < j {
      DestroyedBefore(log, i, j);
    } else if j < i {
      DestroyedBefore(log, j, i);
    }
  }
}
