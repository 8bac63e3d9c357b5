/** What a vault holds after any sequence of operations, read off the sequence itself. */
module SecretHistory {
  import opened Results
  import opened SecretStore

  /** What calls do to the meaning of the store. */
  datatype Effect =
    | Write(at: Place, values: Values)
    | Mark(at: Place, archived: bool)
    | Remove(at: Place)
    | RemoveCluster(cluster: string)

  ghost function Apply(v: Vault, e: Effect): Vault {
    match e
    case Write(at, values) => Wrote(v, at, values)
    case Mark(at, archived) => Marked(v, at, archived)
    case Remove(at) => v - {at}
    case RemoveCluster(c) => Without(v, c)
  }

  ghost function After(log: seq<Effect>): Vault
    decreases |log|
  {
    if log == [] then map[] else Apply(After(log[..|log| - 1]), log[|log| - 1])
  }

  ghost predicate Removes(e: Effect, at: Place) {
    (e.Remove? && e.at == at) || (e.RemoveCluster? && e.cluster == at.cluster)
  }

  ghost predicate Writes(e: Effect, at: Place) { e.Write? && e.at == at }

  /** Where the present life of a secret begins: after its last removal. */
  ghost function Born(log: seq<Effect>, at: Place): (b: nat)
    ensures b <= |log| && (b > 0 ==> Removes(log[b - 1], at))
    ensures forall i :: b <= i < |log| ==> !Removes(log[i], at)
    decreases |log|
  {
    if log == [] then 0
    else if Removes(log[|log| - 1], at) then |log|
    else
      assert forall i :: 0 <= i < |log| - 1 ==> log[i] == log[..|log| - 1][i];
      Born(log[..|log| - 1], at)
  }

  ghost function WritesIn(log: seq<Effect>, from: nat, at: Place): set<nat> {
    set i: nat | from <= i < |log| && Writes(log[i], at)
  }

  /** w is the last write of the secret. */
  ghost predicate LastWrite(log: seq<Effect>, at: Place, w: nat) {
    w < |log| && Writes(log[w], at) && forall i :: w < i < |log| ==> !Writes(log[i], at)
  }

  /** The secret is archived after write w: the last mark since then says so. */
  ghost predicate ArchivedSince(log: seq<Effect>, at: Place, w: nat) {
    exists m :: w < m < |log| && log[m] == Mark(at, true) && forall i :: m < i < |log| ==> log[i] != Mark(at, false)
  }

  /** A secret is there exactly when it was written since its last removal; its version is the number of
      those writes, its values are the last written ones, and it is archived exactly when the last mark
      since that write archived it. */
  lemma {:induction false} HistoryDecides(log: seq<Effect>, at: Place)
    ensures at in After(log) <==> WritesIn(log, Born(log, at), at) != {}
    ensures at in After(log) ==>
              && After(log)[at].version == |WritesIn(log, Born(log, at), at)|
              && forall w: nat :: LastWrite(log, at, w) ==>
                   log[w].values == After(log)[at].values && (After(log)[at].archived <==> ArchivedSince(log, at, w))
    decreases |log|
  {
    if log != [] {
      var init, e := log[..|log| - 1], log[|log| - 1];
      HistoryDecides(init, at);
      assert log == init + [e];
      BornStep(init, e, at);
      if !Removes(e, at) && at in After(log) {
        LastStep(init, e, at);
      }
    }
  }

  lemma BornStep(init: seq<Effect>, e: Effect, at: Place)
    ensures var log := init + [e];
            WritesIn(log, Born(log, at), at) ==
            if Removes(e, at) then {} else WritesIn(init, Born(init, at), at) + if Writes(e, at) then {|init|} else {}
  {
    var log := init + [e];
    assert log[..|log| - 1] == init && log[|init|] == e;
    assert forall i :: 0 <= i < |init| ==> log[i] == init[i];
  }

  lemma {:induction false} LastStep(init: seq<Effect>, e: Effect, at: Place)
    requires !Removes(e, at) && at in Apply(After(init), e)
    requires at in After(init) ==>
               forall w: nat :: LastWrite(init, at, w) ==>
                 init[w].values == After(init)[at].values && (After(init)[at].archived <==> ArchivedSince(init, at, w))
    ensures var log := init + [e];
            forall w: nat :: LastWrite(log, at, w) ==>
              log[w].values == Apply(After(init), e)[at].values &&
              (Apply(After(init), e)[at].archived <==> ArchivedSince(log, at, w))
  {
    var log := init + [e];
    forall w: nat | LastWrite(log, at, w)
      ensures log[w].values == Apply(After(init), e)[at].values
      ensures Apply(After(init), e)[at].archived <==> ArchivedSince(log, at, w)
    {
      if Writes(e, at) {
        assert log[|init|] == e && w == |init|;
      } else {
        assert log[|init|] == e && forall i :: 0 <= i < |init| ==> log[i] == init[i];
        assert LastWrite(init, at, w) && at in After(init);
        MarkStep(init, e, at, w);
      }
    }
  }

  lemma MarkStep(init: seq<Effect>, e: Effect, at: Place, w: nat)
    requires LastWrite(init, at, w)
    ensures ArchivedSince(init + [e], at, w) <==>
            e == Mark(at, true) || (e != Mark(at, false) && ArchivedSince(init, at, w))
  {
    var log := init + [e];
    assert log[|init|] == e && forall i :: 0 <= i < |init| ==> log[i] == init[i];
    if ArchivedSince(init, at, w) {
      var m :| w < m < |init| && init[m] == Mark(at, true) && forall i :: m < i < |init| ==> init[i] != Mark(at, false);
      assert log[m] == Mark(at, true);
      assert e != Mark(at, false) ==> forall i :: m < i < |log| ==> log[i] != Mark(at, false);
    }
  }

  /** Archiving hides a secret and restoring brings back exactly what was there. */
  lemma ArchiveThenRestore(v: Vault, at: Place)
    requires at in v
    ensures ReadFrom(Marked(v, at, true), at).None?
    ensures Marked(Marked(v, at, true), at, false) == v[at := v[at].(archived := false)]
    ensures !v[at].archived ==> Marked(Marked(v, at, true), at, false) == v
  {
  }

  /** A write is read back at once, archived or not before. */
  lemma WriteThenRead(v: Vault, at: Place, values: Values)
    ensures ReadFrom(Wrote(v, at, values), at).Some? && ReadFrom(Wrote(v, at, values), at).value == values
    ensures Version(Wrote(v, at, values), at) == Version(v, at) + 1
    ensures forall x :: x != at ==> ReadFrom(Wrote(v, at, values), x) == ReadFrom(v, x)
  {
  }

  /** A read returns the values of the last write since the last removal, unless archived since. */
  lemma ReadsLastWrite(log: seq<Effect>, at: Place, w: nat)
    requires LastWrite(log, at, w) && Born(log, at) <= w
    ensures ReadFrom(After(log), at) == if ArchivedSince(log, at, w) then None else Some(log[w].values)
  {
    HistoryDecides(log, at);
    assert w in WritesIn(log, Born(log, at), at);
  }

  // ---- every sequence of store calls has such a history

  /** A call on the store, with what happens outside during it. Creating is setting at version zero. */
  datatype Call =
    | SetSecret(cluster: string, path: string, values: Values, expected: Option<int>, w: World)
    | SetArchived(cluster: string, path: string, archived: bool, w: World)
    | GetSecret(cluster: string, path: string, w: World)
    | DeleteSecret(cluster: string, path: string, w: World)
    | DeleteCluster(cluster: string, w: World)
    | ListSecrets(cluster: string, w: World)

  datatype Answer =
    | Written(written: Result<bool>)
    | Done(done: Result<()>)
    | Values(values: Result<Option<Values>>)
    | Listing(listing: Result<seq<Listed>>)

  /** A failed call leaves no effect, or, when only the directory sync failed, its whole effect. */
  ghost predicate Failed(w: World, effects: seq<Effect>, e: Effect) {
    effects == [] || (w.syncFails && effects == [e])
  }

  ghost predicate RemovesWithin(effects: seq<Effect>, cluster: string) {
    forall e :: e in effects ==> e.Remove? && e.at.cluster == cluster
  }

  /** The effects of one call, and what its answer says about the vault before it. */
  ghost predicate Explains(call: Call, answer: Answer, before: Vault, effects: seq<Effect>) {
    match call
    case SetSecret(cluster, path, values, expected, w) =>
      var place := CleanPlace(cluster, path);
      && answer.Written?
      && (place.Err? ==> answer.written.Err? && effects == [])
      && (place.Ok? ==>
            match answer.written
            case Ok(written) =>
              && (written <==> expected.None? || expected.value == Version(before, place.value))
              && effects == if written then [Write(place.value, values)] else []
            case Err => Failed(w, effects, Write(place.value, values)))
    case SetArchived(cluster, path, archived, w) =>
      var place := CleanPlace(cluster, path);
      && answer.Done?
      && (place.Err? ==> answer.done.Err? && effects == [])
      && (place.Ok? ==>
            if answer.done.Ok? then effects == [Mark(place.value, archived)]
            else Failed(w, effects, Mark(place.value, archived)))
    case GetSecret(cluster, path, w) =>
      var place := CleanPlace(cluster, path);
      && answer.Values? && effects == []
      && (answer.values.Ok? ==> place.Ok? && answer.values.value == ReadFrom(before, place.value))
    case DeleteSecret(cluster, path, w) =>
      var place := CleanPlace(cluster, path);
      && answer.Done?
      && (if answer.done.Ok? then place.Ok? && effects == [Remove(place.value)] else effects == [])
    case DeleteCluster(cluster, w) =>
      var id := CleanCluster(cluster);
      && answer.Done?
      && (id.Err? ==> answer.done.Err? && effects == [])
      && (id.Ok? ==>
            if answer.done.Ok? then effects == [RemoveCluster(id.value)] else RemovesWithin(effects, id.value))
    case ListSecrets(cluster, w) =>
      var id := CleanCluster(cluster);
      && answer.Listing? && effects == []
      && (answer.listing.Ok? ==> id.Ok? && ListingOf(before, id.value, answer.listing.value))
  }

  lemma AfterSnoc(log: seq<Effect>, e: Effect)
    ensures After(log + [e]) == Apply(After(log), e)
  {
    assert (log + [e])[..|log|] == log;
  }

  /** A removal that stopped half-way is a sequence of single removals. */
  lemma {:induction false} PartialRemoval(log: seq<Effect>, gone: set<Place>, cluster: string)
    returns (effects: seq<Effect>)
    requires forall at :: at in gone ==> at.cluster == cluster
    ensures RemovesWithin(effects, cluster) && After(log + effects) == After(log) - gone
    decreases gone
  {
    if gone == {} {
      effects := [];
      assert log + [] == log;
    } else {
      var at :| at in gone;
      AfterSnoc(log, Remove(at));
      var rest := PartialRemoval(log + [Remove(at)], gone - {at}, cluster);
      effects := [Remove(at)] + rest;
      assert log + effects == log + [Remove(at)] + rest;
    }
  }

  ghost function Flatten(steps: seq<seq<Effect>>): seq<Effect>
    decreases |steps|
  {
    if steps == [] then [] else Flatten(steps[..|steps| - 1]) + steps[|steps| - 1]
  }

  /** One call, after a history that led to the store as it is. */
  method Perform(store: FileStore, call: Call, ghost log: seq<Effect>)
    returns (answer: Answer, ghost effects: seq<Effect>)
    requires store.Valid() && store.Model() == After(log)
    modifies store
    ensures store.Valid() && store.Model() == After(log + effects)
    ensures Explains(call, answer, After(log), effects)
  {
    match call
    case SetSecret(_, _, _, _, _) =>
      answer, effects := PerformSet(store, call, log);
    case SetArchived(_, _, _, _) =>
      answer, effects := PerformMark(store, call, log);
    case GetSecret(cluster, path, w) =>
      var r := store.GetSecret(cluster, path, w);
      answer, effects := Values(r), [];
      assert log + [] == log;
    case DeleteSecret(_, _, _) =>
      answer, effects := PerformDelete(store, call, log);
    case DeleteCluster(_, _) =>
      answer, effects := PerformDeleteCluster(store, call, log);
    case ListSecrets(cluster, w) =>
      var r := store.ListSecrets(cluster, w);
      answer, effects := Listing(r), [];
      assert log + [] == log;
  }

  method PerformSet(store: FileStore, call: Call, ghost log: seq<Effect>)
    returns (answer: Answer, ghost effects: seq<Effect>)
    requires call.SetSecret? && store.Valid() && store.Model() == After(log)
    modifies store
    ensures store.Valid() && store.Model() == After(log + effects)
    ensures Explains(call, answer, After(log), effects)
  {
    effects := [];
    assert log + [] == log;
    var r := store.SetSecret(call.cluster, call.path, call.values, call.expected, call.w);
    answer := Written(r);
    if store.Model() != After(log) {
      effects := [Write(CleanPlace(call.cluster, call.path).value, call.values)];
      AfterSnoc(log, effects[0]);
    }
    WriteChanges(After(log), call.values);
  }

  method PerformMark(store: FileStore, call: Call, ghost log: seq<Effect>)
    returns (answer: Answer, ghost effects: seq<Effect>)
    requires call.SetArchived? && store.Valid() && store.Model() == After(log)
    modifies store
    ensures store.Valid() && store.Model() == After(log + effects)
    ensures Explains(call, answer, After(log), effects)
  {
    effects := [];
    assert log + [] == log;
    var r := store.SetArchived(call.cluster, call.path, call.archived, call.w);
    answer := Done(r);
    if r.Ok? || store.Model() != After(log) {
      effects := [Mark(CleanPlace(call.cluster, call.path).value, call.archived)];
      AfterSnoc(log, effects[0]);
    }
  }

  method PerformDelete(store: FileStore, call: Call, ghost log: seq<Effect>)
    returns (answer: Answer, ghost effects: seq<Effect>)
    requires call.DeleteSecret? && store.Valid() && store.Model() == After(log)
    modifies store
    ensures store.Valid() && store.Model() == After(log + effects)
    ensures Explains(call, answer, After(log), effects)
  {
    effects := [];
    assert log + [] == log;
    var r := store.DeleteSecret(call.cluster, call.path, call.w);
    answer := Done(r);
    if r.Ok? {
      effects := [Remove(CleanPlace(call.cluster, call.path).value)];
      AfterSnoc(log, effects[0]);
    }
  }

  method PerformDeleteCluster(store: FileStore, call: Call, ghost log: seq<Effect>)
    returns (answer: Answer, ghost effects: seq<Effect>)
    requires call.DeleteCluster? && store.Valid() && store.Model() == After(log)
    modifies store
    ensures store.Valid() && store.Model() == After(log + effects)
    ensures Explains(call, answer, After(log), effects)
  {
    effects := [];
    assert log + [] == log;
    var r := store.DeleteCluster(call.cluster, call.w);
    answer := Done(r);
    if r.Ok? {
      effects := [RemoveCluster(CleanCluster(call.cluster).value)];
      AfterSnoc(log, effects[0]);
    } else if CleanCluster(call.cluster).Ok? {
      effects := ExplainRemoval(log, store.Model(), CleanCluster(call.cluster).value);
    }
  }

  /** A write is never without effect: it raises the version. */
  lemma WriteChanges(v: Vault, values: Values)
    ensures forall at :: Wrote(v, at, values) != v
  {
    forall at
      ensures Wrote(v, at, values) != v
    {
      assert Version(Wrote(v, at, values), at) == Version(v, at) + 1;
    }
  }

  lemma ExplainRemoval(log: seq<Effect>, left: Vault, cluster: string) returns (effects: seq<Effect>)
    requires Without(left, cluster) == Without(After(log), cluster)
    requires forall at :: at in left ==> at in After(log) && left[at] == After(log)[at]
    ensures RemovesWithin(effects, cluster) && After(log + effects) == left
  {
    var gone := set at | at in After(log) && at !in left;
    forall at | at in gone
      ensures at.cluster == cluster
    {
      assert at.cluster != cluster ==> at in Without(After(log), cluster);
    }
    effects := PartialRemoval(log, gone, cluster);
    assert After(log) - gone == left;
  }

  /** Any sequence of calls on an empty store: the store ends as its history says, every call has the
      effects its answer tells, and every answer is read off the history before it. */
  method Serve(store: FileStore, calls: seq<Call>) returns (answers: seq<Answer>, ghost steps: seq<seq<Effect>>)
    requires store.Valid() && store.Model() == map[]
    modifies store
    ensures store.Valid() && |answers| == |steps| == |calls|
    ensures store.Model() == After(Flatten(steps))
    ensures forall i :: 0 <= i < |calls| ==> Explains(calls[i], answers[i], After(Flatten(steps[..i])), steps[i])
  {
    answers, steps := [], [];
    for k := 0 to |calls|
      invariant store.Valid() && |answers| == |steps| == k
      invariant store.Model() == After(Flatten(steps))
      invariant forall i :: 0 <= i < k ==> Explains(calls[i], answers[i], After(Flatten(steps[..i])), steps[i])
    {
      ghost var before := steps;
      var answer: Answer;
      ghost var effects: seq<Effect>;
      answer, effects := Perform(store, calls[k], Flatten(before));
      answers, steps := answers + [answer], before + [effects];
      assert steps[..k] == before;
      assert forall i :: 0 <= i < k ==> steps[..i] == before[..i];
    }
  }
}
