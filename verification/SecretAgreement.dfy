/** Many clients that each make sure one secret exists: they settle on one value. */
module SecretAgreement {
  import opened Results
  import opened SecretStore

  const FIELD := "value"

  function Field(values: Values): string {
    if FIELD in values then values[FIELD] else ""
  }

  /** A component secret is created at once and read back when it was there; a workload key is read
      first, and created only when the caller allows it. */
  datatype Kind = ComponentSecret | WorkloadKey(create: bool)

  datatype Client =
    | Starting
    | Creating(candidate: string)
    | Rereading
    | Succeeded(value: string, wrote: bool)
    | Failed

  /** The secret all clients are about, what makes a stored value acceptable, and the clients' kinds. */
  datatype Setup = Setup(at: Place, valid: string -> bool, kinds: seq<Kind>)

  /** disturbed records that a step failed from outside, or the secret was archived. */
  datatype State = State(vault: Vault, clients: seq<Client>, disturbed: bool)

  /** Client moves and moves of everyone else. Each is one call on the store, which its mutex makes
      atomic. Interrupt is a call that fails; written says that its write took place all the same. */
  datatype Move =
    | Generate(client: nat, candidate: string)
    | Create(client: nat)
    | Read(client: nat)
    | Interrupt(client: nat, written: bool)
    | Archive(place: Place, archived: bool)
    | WriteElsewhere(place: Place, values: Values)

  function Set(s: State, i: nat, x: Client): State
    requires i < |s.clients|
  {
    s.(clients := s.clients[i := x])
  }

  function Judged(c: Setup, values: Values): Client {
    if c.valid(Field(values)) then Succeeded(Field(values), false) else Failed
  }

  function Stored(candidate: string): Values { map[FIELD := candidate] }

  /** The state after a move, nothing when the move is not enabled. */
  function Apply(c: Setup, s: State, m: Move): Option<State>
    requires |s.clients| == |c.kinds|
  {
    match m
    case Generate(i, candidate) =>
      if i < |s.clients| && s.clients[i].Starting? && c.kinds[i].ComponentSecret?
        then Some(Set(s, i, Creating(candidate)))
      else if i < |s.clients| && s.clients[i].Starting? && ReadFrom(s.vault, c.at).None? && c.kinds[i].create then
        Some(Set(s, i, Creating(candidate)))
      else None
    case Create(i) =>
      if i < |s.clients| && s.clients[i].Creating? then
        if Version(s.vault, c.at) != 0 then Some(Set(s, i, Rereading))
        else Some(Set(s, i, Succeeded(s.clients[i].candidate, true))
                  .(vault := Wrote(s.vault, c.at, Stored(s.clients[i].candidate))))
      else None
    case Read(i) =>
      if i >= |s.clients| then None
      else if s.clients[i].Rereading? then
        Some(Set(s, i, if ReadFrom(s.vault, c.at).Some? then Judged(c, ReadFrom(s.vault, c.at).value) else Failed))
      else if s.clients[i].Starting? && c.kinds[i].WorkloadKey? then
        if ReadFrom(s.vault, c.at).Some? then Some(Set(s, i, Judged(c, ReadFrom(s.vault, c.at).value)))
        else if !c.kinds[i].create then Some(Set(s, i, Failed))
        else None
      else None
    case Interrupt(i, written) =>
      if i < |s.clients| && !s.clients[i].Succeeded? && !s.clients[i].Failed? then
        var t := Set(s, i, Failed).(disturbed := true);
        if !written then Some(t)
        else if s.clients[i].Creating? && Version(s.vault, c.at) == 0 then
          Some(t.(vault := Wrote(s.vault, c.at, Stored(s.clients[i].candidate))))
        else None
      else None
    case Archive(place, archived) =>
      Some(s.(vault := Marked(s.vault, place, archived), disturbed := s.disturbed || place == c.at))
    case WriteElsewhere(place, values) =>
      if place == c.at then None else Some(s.(vault := Wrote(s.vault, place, values)))
  }

  function Moves(c: Setup, s: State, ms: seq<Move>): (r: Option<State>)
    requires |s.clients| == |c.kinds|
    ensures r.Some? ==> |r.value.clients| == |c.kinds|
    decreases |ms|
  {
    if ms == [] then Some(s)
    else match Apply(c, s, ms[0])
      case None => None
      case Some(t) => Moves(c, t, ms[1..])
  }

  /** Versions in the vault are positive. */
  ghost predicate Versioned(v: Vault) {
    forall at :: at in v ==> v[at].version >= 1
  }

  ghost predicate Begins(c: Setup, s: State) {
    && |s.clients| == |c.kinds| && Versioned(s.vault) && !s.disturbed
    && (forall i :: 0 <= i < |s.clients| ==> s.clients[i] == Starting)
    && (c.at in s.vault ==> !s.vault[c.at].archived)
  }

  /** Every successful client holds the stored value, at most one wrote it, and without disturbance a
      client fails only on an unacceptable value or because it may not create. */
  ghost predicate Agreeing(c: Setup, s: State) {
    && |s.clients| == |c.kinds| && Versioned(s.vault)
    && (forall i :: 0 <= i < |s.clients| && s.clients[i].Succeeded? ==>
          c.at in s.vault && Field(s.vault[c.at].values) == s.clients[i].value &&
          (s.clients[i].wrote || c.valid(s.clients[i].value)))
    && (forall i, j :: 0 <= i < j < |s.clients| && s.clients[i].Succeeded? && s.clients[j].Succeeded? ==>
          !(s.clients[i].wrote && s.clients[j].wrote))
    && (forall i :: 0 <= i < |s.clients| && s.clients[i].Rereading? ==> c.at in s.vault)
    && (!s.disturbed && c.at in s.vault ==> !s.vault[c.at].archived)
    && (forall i :: 0 <= i < |s.clients| && s.clients[i].Failed? && !s.disturbed ==>
          c.kinds[i] == WorkloadKey(false) || (c.at in s.vault && !c.valid(Field(s.vault[c.at].values))))
  }

  /** What a move keeps of the secret: once there, its values stay. */
  lemma MoveKeepsValue(c: Setup, s: State, m: Move)
    requires |s.clients| == |c.kinds| && Versioned(s.vault) && Apply(c, s, m).Some? && c.at in s.vault
    ensures var v := Apply(c, s, m).value.vault;
            c.at in v && v[c.at].values == s.vault[c.at].values && v[c.at].version == s.vault[c.at].version
  {
  }

  /** A client changes state while the secret stays as it is. */
  lemma ClientAgrees(c: Setup, s: State, i: nat, x: Client)
    requires Agreeing(c, s) && i < |s.clients| && !s.clients[i].Succeeded?
    requires x.Succeeded? ==> c.at in s.vault && Field(s.vault[c.at].values) == x.value && !x.wrote && c.valid(x.value)
    requires x.Rereading? ==> c.at in s.vault
    requires x.Failed? && !s.disturbed ==>
        c.kinds[i] == WorkloadKey(false) || (c.at in s.vault && !c.valid(Field(s.vault[c.at].values)))
    ensures Agreeing(c, Set(s, i, x))
  {
  }

  /** The secret appears with the candidate of a client; no client succeeded before. */
  lemma CreationAgrees(c: Setup, s: State, i: nat, x: Client, candidate: string, disturbed: bool)
    requires Agreeing(c, s) && i < |s.clients| && Version(s.vault, c.at) == 0 && (s.disturbed ==> disturbed)
    requires x == Succeeded(candidate, true) || (x == Failed && disturbed)
    ensures Agreeing(c, Set(s, i, x).(vault := Wrote(s.vault, c.at, Stored(candidate)), disturbed := disturbed))
  {
    assert c.at !in s.vault;
  }

  lemma OthersAgree(c: Setup, s: State, v: Vault, disturbed: bool)
    requires Agreeing(c, s) && Versioned(v) && (s.disturbed ==> disturbed)
    requires c.at in s.vault <==> c.at in v
    requires c.at in v ==>
             v[c.at].values == s.vault[c.at].values && (disturbed || v[c.at].archived == s.vault[c.at].archived)
    ensures Agreeing(c, s.(vault := v, disturbed := disturbed))
  {
  }

  lemma MoveAgrees(c: Setup, s: State, m: Move)
    requires Agreeing(c, s) && Apply(c, s, m).Some?
    ensures Agreeing(c, Apply(c, s, m).value)
  {
    var t := Apply(c, s, m).value;
    match m
    case Generate(i, candidate) =>
      ClientAgrees(c, s, i, Creating(candidate));
    case Create(i) =>
      if Version(s.vault, c.at) == 0 {
        CreationAgrees(c, s, i, Succeeded(s.clients[i].candidate, true), s.clients[i].candidate, s.disturbed);
      } else {
        ClientAgrees(c, s, i, Rereading);
      }
    case Read(i) =>
      ClientAgrees(c, s, i, t.clients[i]);
    case Interrupt(i, written) =>
      if written {
        CreationAgrees(c, s, i, Failed, s.clients[i].candidate, true);
      } else {
        OthersAgree(c, s, s.vault, true);
        ClientAgrees(c, s.(disturbed := true), i, Failed);
      }
    case Archive(_, _) =>
      OthersAgree(c, s, t.vault, t.disturbed);
    case WriteElsewhere(_, _) =>
      OthersAgree(c, s, t.vault, t.disturbed);
  }

  lemma {:induction false} MovesAgree(c: Setup, s: State, ms: seq<Move>)
    requires Agreeing(c, s) && Moves(c, s, ms).Some?
    ensures Agreeing(c, Moves(c, s, ms).value)
    ensures c.at in s.vault ==> c.at in Moves(c, s, ms).value.vault &&
                                Moves(c, s, ms).value.vault[c.at].values == s.vault[c.at].values
    decreases |ms|
  {
    if ms != [] {
      MoveAgrees(c, s, ms[0]);
      if c.at in s.vault {
        MoveKeepsValue(c, s, ms[0]);
      }
      MovesAgree(c, Apply(c, s, ms[0]).value, ms[1..]);
    }
  }

  /** For any number of clients of both kinds, any interleaving, failures and archiving included: at most
      one create succeeds, and any two clients that succeed, at whatever points of the run, saw or wrote
      the same value. */
  lemma OneValue(c: Setup, s: State, first: seq<Move>, later: seq<Move>, i: nat, j: nat)
    requires Begins(c, s) && Moves(c, s, first).Some?
    requires Moves(c, Moves(c, s, first).value, later).Some?
    requires i < |c.kinds| && j < |c.kinds|
    requires Moves(c, s, first).value.clients[i].Succeeded?
    requires Moves(c, Moves(c, s, first).value, later).value.clients[j].Succeeded?
    ensures var a := Moves(c, s, first).value.clients[i];
            var b := Moves(c, Moves(c, s, first).value, later).value.clients[j];
            a.value == b.value
    ensures var last := Moves(c, Moves(c, s, first).value, later).value;
            forall p, q :: 0 <= p < q < |last.clients| && last.clients[p].Succeeded? && last.clients[q].Succeeded? ==>
                             !(last.clients[p].wrote && last.clients[q].wrote)
  {
    MovesAgree(c, s, first);
    MovesAgree(c, Moves(c, s, first).value, later);
  }

  /** In a run without failing calls and without archiving, a finished client has succeeded unless the
      stored value is unacceptable or it was not allowed to create. */
  lemma UndisturbedSucceed(c: Setup, s: State, ms: seq<Move>, i: nat)
    requires Begins(c, s) && Moves(c, s, ms).Some? && !Moves(c, s, ms).value.disturbed && i < |c.kinds|
    requires Moves(c, s, ms).value.clients[i].Failed?
    ensures c.kinds[i] == WorkloadKey(false) ||
            var v := Moves(c, s, ms).value.vault; c.at in v && !c.valid(Field(v[c.at].values))
  {
    MovesAgree(c, s, ms);
  }

  /** Deleting the secret in between breaks the agreement: two clients then succeed with two values. */
  lemma DeletionBreaksAgreement(at: Place, a: string, b: string)
    requires a != b
    ensures var c := Setup(at, _ => true, [ComponentSecret, ComponentSecret]);
            var s := State(map[], [Starting, Starting], false);
            var mid := Moves(c, s, [Generate(0, a), Create(0)]);
            && Begins(c, s) && mid.Some?
            && var deleted := mid.value.(vault := mid.value.vault - {at});
               var last := Moves(c, deleted, [Generate(1, b), Create(1)]);
               last.Some? && last.value.clients == [Succeeded(a, true), Succeeded(b, true)]
  {
    var c := Setup(at, _ => true, [ComponentSecret, ComponentSecret]);
    var s := State(map[], [Starting, Starting], false);
    var s1 := Apply(c, s, Generate(0, a)).value;
    var s2 := Apply(c, s1, Create(0)).value;
    TwoMoves(c, s, Generate(0, a), Create(0));
    assert s2.clients == [Succeeded(a, true), Starting];
    var deleted := s2.(vault := s2.vault - {at});
    var s3 := Apply(c, deleted, Generate(1, b)).value;
    TwoMoves(c, deleted, Generate(1, b), Create(1));
    assert Apply(c, s3, Create(1)).value.clients == [Succeeded(a, true), Succeeded(b, true)];
  }

  lemma TwoMoves(c: Setup, s: State, a: Move, b: Move)
    requires |s.clients| == |c.kinds| && Apply(c, s, a).Some? && Apply(c, Apply(c, s, a).value, b).Some?
    ensures Moves(c, s, [a, b]) == Apply(c, Apply(c, s, a).value, b)
  {
    assert [a, b][1..] == [b];
    var t := Apply(c, Apply(c, s, a).value, b).value;
    assert Moves(c, t, [b][1..]) == Some(t);
  }

  // ---- the two clients, as they call the store

  /** The secret is there with this value. */
  ghost predicate Holds(v: Vault, at: Place, value: string) {
    at in v && value == if "value" in v[at].values then v[at].values["value"] else ""
  }

  /** The secret is not archived, and its value passes. */
  ghost predicate Acceptable(v: Vault, at: Place, valid: string -> bool)
    requires at in v
  {
    !v[at].archived && valid(Field(v[at].values))
  }

  /** Creates the secret, or reads and validates the one that is there. */
  method EnsureComponentSecret(store: FileStore, cluster: string, path: string, generated: Option<string>,
                               valid: string -> bool, creation: World, reading: World) returns (r: Result<string>)
    requires store.Valid()
    modifies store
    ensures store.Valid()
    ensures var place := CleanPlace(cluster, path);
            && (r.Ok? ==> place.Ok? && Holds(store.Model(), place.value, r.value))
            && (place.Ok? && place.value in old(store.Model()) && Versioned(old(store.Model())) ==>
                  store.Model() == old(store.Model()) && (r.Ok? ==> valid(r.value)))
            && (r.Ok? && place.value !in old(store.Model()) ==>
                  generated.Some? && r.value == generated.value &&
                  store.Model() == Wrote(old(store.Model()), place.value, map["value" := r.value]))
    ensures var place := CleanPlace(cluster, path);
            place.Ok? && generated.Some? && creation.Fine() && reading.Fine() &&
            old(store.Unlockable(place.value.cluster)) && Versioned(old(store.Model())) ==>
              r == if place.value !in old(store.Model()) then Ok(generated.value)
                   else if Acceptable(old(store.Model()), place.value, valid)
                     then Ok(Field(old(store.Model())[place.value].values))
                   else Err
    ensures forall id :: old(store.Unlockable(id)) ==> store.Unlockable(id)
  {
    if generated.None? {
      return Err;
    }
    assert FIELD in Stored(generated.value);
    var created := store.CreateSecret(cluster, path, Stored(generated.value), creation);
    if created.Err? {
      return Err;
    }
    if created.value {
      return Ok(generated.value);
    }
    var values := store.GetSecret(cluster, path, reading);
    if values.Err? || values.value.None? || !valid(Field(values.value.value)) {
      return Err;
    }
    return Ok(Field(values.value.value));
  }

  /** Reads and validates the key, or creates it when it is absent and the caller allows it. */
  method EnsureWorkloadCAKey(store: FileStore, cluster: string, path: string, create: bool, generated: Option<string>,
                             valid: string -> bool, first: World, creation: World, second: World)
    returns (r: Result<string>)
    requires store.Valid()
    modifies store
    ensures store.Valid()
    ensures var place := CleanPlace(cluster, path);
            && (r.Ok? ==> place.Ok? && Holds(store.Model(), place.value, r.value))
            && (place.Ok? && place.value in old(store.Model()) && Versioned(old(store.Model())) ==>
                  store.Model() == old(store.Model()) && (r.Ok? ==> valid(r.value)))
            && (r.Ok? && place.value !in old(store.Model()) ==>
                  create && generated.Some? && r.value == generated.value &&
                  store.Model() == Wrote(old(store.Model()), place.value, map["value" := r.value]))
            && (!create ==> store.Model() == old(store.Model()))
    ensures var place := CleanPlace(cluster, path);
            place.Ok? && first.Fine() && creation.Fine() && second.Fine() &&
            old(store.Unlockable(place.value.cluster)) && Versioned(old(store.Model())) ==>
              r == if place.value !in old(store.Model()) then
                     if create && generated.Some? then Ok(generated.value) else Err
                   else if Acceptable(old(store.Model()), place.value, valid)
                     then Ok(Field(old(store.Model())[place.value].values))
                   else Err
  {
    var values := store.GetSecret(cluster, path, first);
    if values.Err? {
      return Err;
    }
    if values.value.Some? {
      return if valid(Field(values.value.value)) then Ok(Field(values.value.value)) else Err;
    }
    if !create || generated.None? {
      return Err;
    }
    r := EnsureComponentSecret(store, cluster, path, generated, valid, creation, second);
  }

  // ---- every schedule of store calls is a run of the machine

  /** One call of a client, or of somebody else on any secret. A client's turn may bring a fresh value. */
  datatype Turn =
    | ClientTurn(client: nat, candidate: Option<string>, w: World)
    | ArchiveTurn(cluster: string, path: string, archived: bool, w: World)
    | WriteTurn(cluster: string, path: string, values: Values, expected: Option<int>, w: World)

  /** The next call of a client that is not finished, and the move it is. */
  method NextCall(store: FileStore, c: Setup, cluster: string, path: string, clients: seq<Client>, i: nat,
                  candidate: Option<string>, w: World, ghost disturbed: bool)
    returns (next: Client, ghost m: Move)
    requires store.Valid() && CleanPlace(cluster, path) == Ok(c.at) && |clients| == |c.kinds|
    requires i < |clients| && !clients[i].Succeeded? && !clients[i].Failed?
    modifies store
    ensures store.Valid()
    ensures Apply(c, State(old(store.Model()), clients, disturbed), m) ==
            Some(State(store.Model(), clients[i := next], disturbed || m.Interrupt?))
    ensures old(store.Unlockable(c.at.cluster)) ==> store.Unlockable(c.at.cluster)
    ensures w.Fine() && candidate.Some? && old(store.Unlockable(c.at.cluster)) ==> !m.Interrupt?
  {
    match clients[i]
    case Starting =>
      next, m := FirstCall(store, c, cluster, path, clients, i, candidate, w, disturbed);
    case Creating(value) =>
      next, m := CreateCall(store, c, cluster, path, clients, i, w, disturbed);
    case Rereading =>
      next, m := RereadCall(store, c, cluster, path, clients, i, w, disturbed);
  }

  /** A key is looked up first; then a fresh value is made. */
  method FirstCall(store: FileStore, c: Setup, cluster: string, path: string, clients: seq<Client>, i: nat,
                   candidate: Option<string>, w: World, ghost disturbed: bool)
    returns (next: Client, ghost m: Move)
    requires store.Valid() && CleanPlace(cluster, path) == Ok(c.at) && |clients| == |c.kinds|
    requires i < |clients| && clients[i].Starting?
    modifies store
    ensures store.Valid()
    ensures Apply(c, State(old(store.Model()), clients, disturbed), m) ==
            Some(State(store.Model(), clients[i := next], disturbed || m.Interrupt?))
    ensures old(store.Unlockable(c.at.cluster)) ==> store.Unlockable(c.at.cluster)
    ensures w.Fine() && candidate.Some? && old(store.Unlockable(c.at.cluster)) ==> !m.Interrupt?
  {
    if c.kinds[i].WorkloadKey? {
      var values := store.GetSecret(cluster, path, w);
      if values.Err? {
        return Failed, Interrupt(i, false);
      }
      if values.value.Some? {
        return Judged(c, values.value.value), Read(i);
      }
      if !c.kinds[i].create {
        return Failed, Read(i);
      }
    }
    if candidate.None? {
      return Failed, Interrupt(i, false);
    }
    return Creating(candidate.value), Generate(i, candidate.value);
  }

  method CreateStored(store: FileStore, c: Setup, cluster: string, path: string, candidate: string, w: World)
    returns (created: Result<bool>)
    requires store.Valid() && CleanPlace(cluster, path) == Ok(c.at)
    modifies store
    ensures store.Valid()
    ensures WriteOutcome(old(store.Model()), c.at, Stored(candidate), Some(0), w, created, store.Model())
    ensures old(store.Unlockable(c.at.cluster)) ==> store.Unlockable(c.at.cluster)
    ensures w.Fine() && old(store.Unlockable(c.at.cluster)) ==> created.Ok?
  {
    assert FIELD in Stored(candidate);
    created := store.CreateSecret(cluster, path, Stored(candidate), w);
  }

  method CreateCall(store: FileStore, c: Setup, cluster: string, path: string, clients: seq<Client>, i: nat,
                    w: World, ghost disturbed: bool)
    returns (next: Client, ghost m: Move)
    requires store.Valid() && CleanPlace(cluster, path) == Ok(c.at) && |clients| == |c.kinds|
    requires i < |clients| && clients[i].Creating?
    modifies store
    ensures store.Valid()
    ensures Apply(c, State(old(store.Model()), clients, disturbed), m) ==
            Some(State(store.Model(), clients[i := next], disturbed || m.Interrupt?))
    ensures old(store.Unlockable(c.at.cluster)) ==> store.Unlockable(c.at.cluster)
    ensures w.Fine() && old(store.Unlockable(c.at.cluster)) ==> !m.Interrupt?
  {
    ghost var s := State(store.Model(), clients, disturbed);
    var created := CreateStored(store, c, cluster, path, clients[i].candidate, w);
    next := AfterCreate(clients[i].candidate, created);
    m := if created.Ok? then Create(i) else Interrupt(i, store.Model() != s.vault);
    CreateIsMove(c, s, i, w, created, store.Model());
  }

  function AfterCreate(value: string, created: Result<bool>): Client {
    if created.Err? then Failed else if created.value then Succeeded(value, true) else Rereading
  }

  /** Every outcome of a create is a move: the create, or an interruption that may have written. */
  lemma CreateIsMove(c: Setup, s: State, i: nat, w: World, created: Result<bool>, after: Vault)
    requires |s.clients| == |c.kinds| && i < |s.clients| && s.clients[i].Creating?
    requires WriteOutcome(s.vault, c.at, Stored(s.clients[i].candidate), Some(0), w, created, after)
    ensures var m := if created.Ok? then Create(i) else Interrupt(i, after != s.vault);
            var next := AfterCreate(s.clients[i].candidate, created);
            Apply(c, s, m) == Some(State(after, s.clients[i := next], s.disturbed || m.Interrupt?))
  {
    if created.Err? && after != s.vault {
      assert Version(s.vault, c.at) == 0;
    }
  }

  method RereadCall(store: FileStore, c: Setup, cluster: string, path: string, clients: seq<Client>, i: nat,
                    w: World, ghost disturbed: bool)
    returns (next: Client, ghost m: Move)
    requires store.Valid() && CleanPlace(cluster, path) == Ok(c.at) && |clients| == |c.kinds|
    requires i < |clients| && clients[i].Rereading?
    modifies store
    ensures store.Valid()
    ensures Apply(c, State(old(store.Model()), clients, disturbed), m) ==
            Some(State(store.Model(), clients[i := next], disturbed || m.Interrupt?))
    ensures old(store.Unlockable(c.at.cluster)) ==> store.Unlockable(c.at.cluster)
    ensures w.Fine() && old(store.Unlockable(c.at.cluster)) ==> !m.Interrupt?
  {
    var values := store.GetSecret(cluster, path, w);
    if values.Err? {
      return Failed, Interrupt(i, false);
    }
    return if values.value.Some? then Judged(c, values.value.value) else Failed, Read(i);
  }

  lemma WriteIsMove(c: Setup, s: State, at: Place, values: Values)
    requires |s.clients| == |c.kinds| && at != c.at
    ensures Moves(c, s, [WriteElsewhere(at, values)]) == Some(s.(vault := Wrote(s.vault, at, values)))
  {
    OneMove(c, s, WriteElsewhere(at, values));
  }

  lemma ArchiveIsMove(c: Setup, s: State, at: Place, archived: bool)
    requires |s.clients| == |c.kinds|
    ensures Moves(c, s, [Archive(at, archived)]) ==
            Some(s.(vault := Marked(s.vault, at, archived), disturbed := s.disturbed || at == c.at))
  {
    OneMove(c, s, Archive(at, archived));
  }

  /** Somebody else archives or restores a secret: one move, or none when nothing changed. */
  method OthersArchive(store: FileStore, c: Setup, clients: seq<Client>, cluster: string, path: string, archived: bool,
                       w: World, ghost disturbed: bool)
    returns (ghost ms: seq<Move>, ghost after: bool)
    requires store.Valid() && |clients| == |c.kinds|
    modifies store
    ensures store.Valid()
    ensures Moves(c, State(old(store.Model()), clients, disturbed), ms) == Some(State(store.Model(), clients, after))
    ensures old(store.Unlockable(c.at.cluster)) ==> store.Unlockable(c.at.cluster)
    ensures CleanPlace(cluster, path) != Ok(c.at) ==> after == disturbed
  {
    ghost var s := State(store.Model(), clients, disturbed);
    ms, after := [], disturbed;
    var r := store.SetArchived(cluster, path, archived, w);
    if store.Model() != s.vault {
      ms := [Archive(CleanPlace(cluster, path).value, archived)];
      after := disturbed || CleanPlace(cluster, path) == Ok(c.at);
      ArchiveIsMove(c, s, CleanPlace(cluster, path).value, archived);
    }
  }

  /** Somebody else writes another secret: one move, or none when nothing changed. */
  method OthersWrite(store: FileStore, c: Setup, clients: seq<Client>, cluster: string, path: string, values: Values,
                     expected: Option<int>, w: World, ghost disturbed: bool)
    returns (ghost ms: seq<Move>)
    requires store.Valid() && |clients| == |c.kinds| && CleanPlace(cluster, path) != Ok(c.at)
    modifies store
    ensures store.Valid()
    ensures Moves(c, State(old(store.Model()), clients, disturbed), ms) ==
            Some(State(store.Model(), clients, disturbed))
    ensures old(store.Unlockable(c.at.cluster)) ==> store.Unlockable(c.at.cluster)
  {
    ghost var s := State(store.Model(), clients, disturbed);
    ms := [];
    var r := store.SetSecret(cluster, path, values, expected, w);
    if store.Model() != s.vault {
      ms := [WriteElsewhere(CleanPlace(cluster, path).value, values)];
      WriteIsMove(c, s, CleanPlace(cluster, path).value, values);
    }
  }

  lemma OneMove(c: Setup, s: State, m: Move)
    requires |s.clients| == |c.kinds|
    ensures Moves(c, s, [m]) == Apply(c, s, m)
  {
    assert [m][1..] == [];
    if Apply(c, s, m).Some? {
      assert Moves(c, Apply(c, s, m).value, []) == Apply(c, s, m);
    }
  }

  lemma {:induction false} MovesAppend(c: Setup, s: State, a: seq<Move>, b: seq<Move>)
    requires |s.clients| == |c.kinds| && Moves(c, s, a).Some?
    ensures Moves(c, s, a + b) == Moves(c, Moves(c, s, a).value, b)
    decreases |a|
  {
    if a == [] {
      assert a + b == b;
    } else {
      assert (a + b)[0] == a[0] && (a + b)[1..] == a[1..] + b;
      MovesAppend(c, Apply(c, s, a[0]).value, a[1..], b);
    }
  }

  ghost predicate Agreed(clients: seq<Client>) {
    forall i, j :: 0 <= i < j < |clients| && clients[i].Succeeded? && clients[j].Succeeded? ==>
      clients[i].value == clients[j].value && !(clients[i].wrote && clients[j].wrote)
  }

  lemma RunsAgree(c: Setup, s: State, ms: seq<Move>)
    requires Begins(c, s) && Moves(c, s, ms).Some?
    ensures Agreed(Moves(c, s, ms).value.clients)
  {
    MovesAgree(c, s, ms);
  }

  /** Nothing goes wrong in the turn, and it archives or restores another secret if any. */
  ghost predicate Smooth(c: Setup, turn: Turn) {
    match turn
    case ClientTurn(_, candidate, w) => candidate.Some? && w.Fine()
    case ArchiveTurn(cluster, path, _, _) => CleanPlace(cluster, path) != Ok(c.at)
    case WriteTurn(_, _, _, _, _) => true
  }

  /** One turn as the moves it is. */
  method TakeTurn(store: FileStore, c: Setup, cluster: string, path: string, clients: seq<Client>, turn: Turn,
                  ghost disturbed: bool)
    returns (next: seq<Client>, ghost ms: seq<Move>, ghost after: bool)
    requires store.Valid() && CleanPlace(cluster, path) == Ok(c.at) && |clients| == |c.kinds|
    requires turn.WriteTurn? ==> CleanPlace(turn.cluster, turn.path) != Ok(c.at)
    modifies store
    ensures store.Valid() && |next| == |c.kinds|
    ensures Moves(c, State(old(store.Model()), clients, disturbed), ms) == Some(State(store.Model(), next, after))
    ensures old(store.Unlockable(c.at.cluster)) ==> store.Unlockable(c.at.cluster)
    ensures old(store.Unlockable(c.at.cluster)) && Smooth(c, turn) ==> after == disturbed
  {
    next, ms, after := clients, [], disturbed;
    match turn
    case ClientTurn(i, candidate, w) =>
      if i < |clients| && !clients[i].Succeeded? && !clients[i].Failed? {
        ghost var s := State(store.Model(), clients, disturbed);
        var x: Client;
        ghost var m: Move;
        x, m := NextCall(store, c, cluster, path, clients, i, candidate, w, disturbed);
        OneMove(c, s, m);
        next, ms, after := clients[i := x], [m], disturbed || m.Interrupt?;
      }
    case ArchiveTurn(otherCluster, otherPath, archived, w) =>
      ms, after := OthersArchive(store, c, clients, otherCluster, otherPath, archived, w, disturbed);
    case WriteTurn(otherCluster, otherPath, values, expected, w) =>
      ms := OthersWrite(store, c, clients, otherCluster, otherPath, values, expected, w, disturbed);
  }

  /** The clients call the store in any order, with any failures, while others archive and write
      elsewhere: this is a run of the machine, so all clients that succeed agree. */
  method Schedule(store: FileStore, c: Setup, cluster: string, path: string, turns: seq<Turn>)
    returns (clients: seq<Client>, ghost ms: seq<Move>)
    requires store.Valid() && CleanPlace(cluster, path) == Ok(c.at)
    requires c.at in store.Model() ==> !store.Model()[c.at].archived
    requires forall t :: t in turns && t.WriteTurn? ==> CleanPlace(t.cluster, t.path) != Ok(c.at)
    modifies store
    ensures store.Valid()
    ensures var s := State(old(store.Model()), seq(|c.kinds|, _ => Starting), false);
            && Begins(c, s) && Moves(c, s, ms).Some?
            && Moves(c, s, ms).value.vault == store.Model() && Moves(c, s, ms).value.clients == clients
    ensures Agreed(clients)
    ensures old(store.Unlockable(c.at.cluster)) && (forall t :: t in turns ==> Smooth(c, t)) ==>
              forall i :: 0 <= i < |clients| && clients[i].Failed? ==>
                c.kinds[i] == WorkloadKey(false) ||
                (c.at in store.Model() && !c.valid(Field(store.Model()[c.at].values)))
  {
    clients, ms := seq(|c.kinds|, _ => Starting), [];
    ghost var s, disturbed := State(store.Model(), clients, false), false;
    assert Begins(c, s);
    for k := 0 to |turns|
      invariant store.Valid() && |clients| == |c.kinds|
      invariant Moves(c, s, ms) == Some(State(store.Model(), clients, disturbed))
      invariant old(store.Unlockable(c.at.cluster)) && (forall t :: t in turns ==> Smooth(c, t)) ==>
                  store.Unlockable(c.at.cluster) && !disturbed
    {
      assert turns[k] in turns;
      ghost var more: seq<Move>;
      clients, more, disturbed := TakeTurn(store, c, cluster, path, clients, turns[k], disturbed);
      MovesAppend(c, s, ms, more);
      ms := ms + more;
    }
    RunsAgree(c, s, ms);
    if !disturbed {
      forall i | 0 <= i < |clients| && clients[i].Failed?
        ensures c.kinds[i] == WorkloadKey(false) ||
                (c.at in store.Model() && !c.valid(Field(store.Model()[c.at].values)))
      {
        UndisturbedSucceed(c, s, ms, i);
      }
    }
  }
}
