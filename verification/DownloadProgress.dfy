/** What every run of the concurrent download respects: the limits, progress to an end, and the first error. */
module DownloadProgress {
  import opened Results
  import opened ImageStore
  import opened DownloadRun

  // ---- limits

  ghost function Workers(c: Setup, s: State): set<nat>
    requires |s.phases| == |c.jobs|
  {
    set j: nat | j < |s.phases| && s.phases[j].Working?
  }

  ghost function WorkersAt(c: Setup, s: State, h: string): set<nat>
    requires |s.phases| == |c.jobs|
  {
    set j: nat | j < |s.phases| && s.phases[j].Working? && c.jobs[j].ImageJob? && c.jobs[j].host == h
  }

  lemma {:induction false} SubsetSize(a: set<nat>, b: set<nat>)
    requires a <= b
    ensures |a| <= |b|
  {
    if a != {} {
      var x :| x in a;
      SubsetSize(a - {x}, b - {x});
    }
  }

  /** At most the requested number of jobs work at once, four when none is requested, at most each
      registry's limit of its images, and one per repository. */
  lemma LimitsRespected(c: Setup, s: State, h: string)
    requires Reachable(c, s)
    ensures |s.phases| == |c.jobs|
    ensures |Workers(c, s)| <= if c.concurrency > 0 then c.concurrency else 4
    ensures h in c.limits && c.limits[h] > 0 ==> |WorkersAt(c, s, h)| <= c.limits[h]
    ensures forall i, j | i in Workers(c, s) && j in Workers(c, s) && c.jobs[i].ImageJob? && c.jobs[j].ImageJob? ::
              c.jobs[i].repo == c.jobs[j].repo ==> i == j
  {
    ReachableIsSound(c, s);
    SubsetSize(Workers(c, s), GlobalHolders(s.phases));
    if h in c.limits && c.limits[h] > 0 {
      SubsetSize(WorkersAt(c, s, h), HostHolders(c, s.phases, h));
    }
  }

  // ---- and the requested number is reached

  ghost function FirstWorking(n: nat, k: nat): seq<Phase> {
    seq(n, i => if i < k then Working(0, NO_LOCAL) else NotStarted)
  }

  /** The first k jobs work and the others have not started. */
  ghost function Busy(c: Setup, k: nat): State
    requires k <= |c.jobs|
  {
    Start(c).(main := Checking(k), global := k, phases := FirstWorking(|c.jobs|, k))
  }

  lemma OneMoreWorking(n: nat, k: nat, p: Phase)
    requires k < n
    ensures FirstWorking(n, k)[k := p][k := Working(0, NO_LOCAL)] == FirstWorking(n, k + 1)
  {
  }

  /** The loop starts the next job. */
  lemma Starts(c: Setup, s: State, k: nat)
    requires |s.phases| == |c.jobs| && s.main == Checking(k) && k < |c.jobs| && s.firstErr.None?
    ensures Moves(c, s, [Check, Launch]) ==
            Some(To(s, k, if c.Limited(k) then WantHost else WantGlobal).(main := Checking(k + 1)))
  {
    assert [Check, Launch][1..] == [Launch] && [Launch][1..] == [];
    var t := s.(main := Launching(k));
    assert Apply(c, s, Check) == Some(t);
    var u := To(t, k, if c.Limited(k) then WantHost else WantGlobal).(main := Checking(k + 1));
    assert Apply(c, t, Launch) == Some(u) && Moves(c, u, []) == Some(u);
  }

  lemma {:induction false} MovesJoin(c: Setup, s: State, a: seq<Move>, b: seq<Move>)
    requires |s.phases| == |c.jobs| && Moves(c, s, a).Some?
    ensures Moves(c, s, a + b) == Moves(c, Moves(c, s, a).value, b)
    decreases |a|
  {
    if a == [] {
      assert a + b == b;
    } else {
      assert (a + b)[0] == a[0] && (a + b)[1..] == a[1..] + b;
      MovesJoin(c, Apply(c, s, a[0]).value, a[1..], b);
    }
  }

  lemma StartReached(c: Setup, s: State, k: nat)
    requires Reachable(c, s) && |s.phases| == |c.jobs| && s.main == Checking(k) && k < |c.jobs| && s.firstErr.None?
    ensures Reachable(c, To(s, k, if c.Limited(k) then WantHost else WantGlobal).(main := Checking(k + 1)))
  {
    var ms: seq<Move> :| Moves(c, Start(c), ms) == Some(s);
    Starts(c, s, k);
    MovesJoin(c, Start(c), ms, [Check, Launch]);
  }

  lemma AdvanceReached(c: Setup, s: State, k: nat, t: State)
    requires Reachable(c, s) && |s.phases| == |c.jobs| && k < |c.jobs| && Forward(c, s, k) == Some(t)
    ensures Reachable(c, t)
  {
    var ms: seq<Move> :| Moves(c, Start(c), ms) == Some(s);
    OneMoreMove(c, Start(c), ms, Advance(k));
    assert Moves(c, Start(c), ms + [Advance(k)]) == Some(t);
  }

  /** One more file download starts and begins its work. */
  lemma OneMoreWorks(c: Setup, k: nat)
    requires k < |c.jobs| && c.jobs[k].FileJob? && k < c.Slots() && Reachable(c, Busy(c, k))
    ensures Reachable(c, Busy(c, k + 1))
  {
    var s := Busy(c, k);
    StartReached(c, s, k);
    var t := To(s, k, WantGlobal).(main := Checking(k + 1));
    var u := To(t, k, Working(0, NO_LOCAL)).(global := k + 1);
    AdvanceReached(c, t, k, u);
    OneMoreWorking(|c.jobs|, k, WantGlobal);
  }

  lemma {:induction false} ManyWork(c: Setup, k: nat)
    requires k <= |c.jobs| && (forall j :: 0 <= j < |c.jobs| ==> c.jobs[j].FileJob?) && k <= c.Slots()
    ensures Reachable(c, Busy(c, k))
  {
    if k == 0 {
      assert Start(c).phases == Busy(c, 0).phases;
      assert Moves(c, Start(c), []) == Some(Busy(c, 0));
    } else {
      ManyWork(c, k - 1);
      OneMoreWorks(c, k - 1);
    }
  }

  /** File downloads reach the requested number, or all of them work at once when they are fewer. */
  lemma LimitsReached(c: Setup) returns (s: State)
    requires forall j :: 0 <= j < |c.jobs| ==> c.jobs[j].FileJob?
    ensures Reachable(c, s) && |s.phases| == |c.jobs|
    ensures var wanted := if c.concurrency > 0 then c.concurrency else 4;
            |Workers(c, s)| == if wanted < |c.jobs| then wanted else |c.jobs|
  {
    ManyWork(c, c.Slots());
    s := Busy(c, c.Slots());
    BusyWorkers(c, c.Slots());
  }

  lemma {:induction false} BusyWorkers(c: Setup, k: nat)
    requires k <= |c.jobs|
    ensures |Workers(c, Busy(c, k))| == k
  {
    if k == 0 {
      assert Workers(c, Busy(c, 0)) == {};
    } else {
      BusyWorkers(c, k - 1);
      assert Workers(c, Busy(c, k)) == Workers(c, Busy(c, k - 1)) + {k - 1};
    }
  }

  /** Every job stores an image of one registry in its own repository. */
  ghost predicate OneRegistry(c: Setup, h: string) {
    && h in c.limits && c.limits[h] > 0
    && (forall j :: 0 <= j < |c.jobs| ==> c.jobs[j].ImageJob? && c.jobs[j].host == h)
    && forall i, j :: 0 <= i < j < |c.jobs| ==> c.jobs[i].repo != c.jobs[j].repo
  }

  ghost function FirstLocks(c: Setup, k: nat): map<string, nat>
    requires k <= |c.jobs| && forall j :: 0 <= j < |c.jobs| ==> c.jobs[j].ImageJob?
  {
    if k == 0 then map[] else FirstLocks(c, k - 1)[c.jobs[k - 1].repo := k - 1]
  }

  ghost function BusyAt(c: Setup, h: string, k: nat): State
    requires k <= |c.jobs| && OneRegistry(c, h)
  {
    Busy(c, k).(hosts := Start(c).hosts[h := k], locks := FirstLocks(c, k))
  }

  lemma {:induction false} LockFree(c: Setup, h: string, k: nat, j: nat)
    requires OneRegistry(c, h) && k <= j < |c.jobs|
    ensures c.jobs[j].repo !in FirstLocks(c, k)
  {
    if k > 0 {
      LockFree(c, h, k - 1, j);
    }
  }

  /** As before, with the next image past its registry. */
  ghost function PastHost(c: Setup, h: string, k: nat): State
    requires OneRegistry(c, h) && k < |c.jobs|
  {
    var s := BusyAt(c, h, k);
    s.(main := Checking(k + 1), phases := s.phases[k := WantHost][k := WantGlobal], hosts := s.hosts[h := k + 1])
  }

  lemma NextPassesHost(c: Setup, h: string, k: nat)
    requires OneRegistry(c, h) && k < |c.jobs| && k < c.limits[h] && Reachable(c, BusyAt(c, h, k))
    ensures Reachable(c, PastHost(c, h, k))
  {
    var s := BusyAt(c, h, k);
    StartReached(c, s, k);
    var t := To(s, k, WantHost).(main := Checking(k + 1));
    HostSlot(c, t, k);
    AdvanceReached(c, t, k, PastHost(c, h, k));
  }

  /** One more image passes its registry, the global limit and its repository. */
  lemma OneMoreStores(c: Setup, h: string, k: nat)
    requires OneRegistry(c, h) && k < |c.jobs| && k < c.Slots() && k < c.limits[h] && Reachable(c, BusyAt(c, h, k))
    ensures Reachable(c, BusyAt(c, h, k + 1))
  {
    LockFree(c, h, k, k);
    NextPassesHost(c, h, k);
    var u := PastHost(c, h, k);
    var v := To(u, k, WantRepo).(global := k + 1);
    GlobalSlot(c, u, k);
    AdvanceReached(c, u, k, v);
    var w := To(v, k, Working(0, NO_LOCAL)).(locks := v.locks[c.jobs[k].repo := k]);
    RepoSlot(c, v, k);
    AdvanceReached(c, v, k, w);
    SameBusy(c, h, k, w);
  }

  lemma HostSlot(c: Setup, s: State, k: nat)
    requires |s.phases| == |c.jobs| && k < |c.jobs| && c.jobs[k].ImageJob? && s.phases[k] == WantHost
    requires var h := c.jobs[k].host; h in s.hosts && h in c.limits && s.hosts[h] < c.limits[h]
    ensures var h := c.jobs[k].host;
            Forward(c, s, k) == Some(To(s, k, WantGlobal).(hosts := s.hosts[h := s.hosts[h] + 1]))
  {
  }

  lemma GlobalSlot(c: Setup, s: State, k: nat)
    requires |s.phases| == |c.jobs| && k < |c.jobs| && c.jobs[k].ImageJob? && s.phases[k] == WantGlobal
    requires s.global < c.Slots()
    ensures Forward(c, s, k) == Some(To(s, k, WantRepo).(global := s.global + 1))
  {
  }

  lemma RepoSlot(c: Setup, s: State, k: nat)
    requires |s.phases| == |c.jobs| && k < |c.jobs| && c.jobs[k].ImageJob? && s.phases[k] == WantRepo
    requires c.jobs[k].repo !in s.locks
    ensures Forward(c, s, k) == Some(To(s, k, Working(0, NO_LOCAL)).(locks := s.locks[c.jobs[k].repo := k]))
  {
  }

  lemma SameBusy(c: Setup, h: string, k: nat, w: State)
    requires OneRegistry(c, h) && k < |c.jobs|
    requires w == BusyAt(c, h, k).(main := Checking(k + 1), global := k + 1, phases := w.phases,
                                   hosts := BusyAt(c, h, k).hosts[h := k + 1],
                                   locks := FirstLocks(c, k)[c.jobs[k].repo := k])
    requires w.phases ==
             FirstWorking(|c.jobs|, k)[k := WantHost][k := WantGlobal][k := WantRepo][k := Working(0, NO_LOCAL)]
    ensures w == BusyAt(c, h, k + 1)
  {
    OneMoreWorking(|c.jobs|, k, WantHost);
    assert w.phases == FirstWorking(|c.jobs|, k)[k := WantHost][k := Working(0, NO_LOCAL)];
    assert w.hosts == Start(c).hosts[h := k + 1];
  }

  lemma {:induction false} ManyStore(c: Setup, h: string, k: nat)
    requires OneRegistry(c, h) && k <= |c.jobs| && k <= c.Slots() && k <= c.limits[h]
    ensures Reachable(c, BusyAt(c, h, k))
  {
    if k == 0 {
      assert Start(c).phases == BusyAt(c, h, 0).phases && Start(c).hosts == BusyAt(c, h, 0).hosts;
      assert Moves(c, Start(c), []) == Some(BusyAt(c, h, 0));
    } else {
      ManyStore(c, h, k - 1);
      OneMoreStores(c, h, k - 1);
    }
  }

  /** Images of one registry reach its limit, unless the requested number or their own is smaller. */
  lemma RegistryLimitReached(c: Setup, h: string) returns (s: State)
    requires OneRegistry(c, h)
    ensures Reachable(c, s) && |s.phases| == |c.jobs|
    ensures var wanted := if c.concurrency > 0 then c.concurrency else 4;
            |WorkersAt(c, s, h)| == Least(c.limits[h], wanted, |c.jobs|)
  {
    var n := if c.limits[h] < c.Slots() then c.limits[h] else c.Slots();
    ManyStore(c, h, n);
    s := BusyAt(c, h, n);
    BusyWorkers(c, n);
    assert WorkersAt(c, s, h) == Workers(c, Busy(c, n));
  }

  function Least(a: int, b: int, d: int): int {
    if a <= b && a <= d then a else if b <= d then b else d
  }

  // ---- no deadlock, and every run ends

  ghost function Ranks(jobs: seq<Job>, ps: seq<Phase>): nat
    requires |jobs| == |ps|
    decreases |ps|
  {
    if ps == [] then 0 else Rank(jobs[0], ps[0]) + Ranks(jobs[1..], ps[1..])
  }

  ghost function MainRank(c: Setup, m: Main): nat {
    match m
    case Checking(i) => if i <= |c.jobs| then 2 * (|c.jobs| - i) + 1 else 1
    case Launching(i) => if i <= |c.jobs| then 2 * (|c.jobs| - i) else 0
    case Waiting => 0
  }

  ghost function Measure(c: Setup, s: State): nat
    requires |s.phases| == |c.jobs|
  {
    MainRank(c, s.main) + Ranks(c.jobs, s.phases)
  }

  lemma {:induction false} RanksUpdate(jobs: seq<Job>, ps: seq<Phase>, j: nat, p: Phase)
    requires |jobs| == |ps| && j < |ps|
    ensures Ranks(jobs, ps[j := p]) + Rank(jobs[j], ps[j]) == Ranks(jobs, ps) + Rank(jobs[j], p)
    decreases j
  {
    if j == 0 {
      assert ps[0 := p][1..] == ps[1..];
    } else {
      assert ps[j := p][1..] == ps[1..][j - 1 := p];
      RanksUpdate(jobs[1..], ps[1..], j - 1, p);
    }
  }

  /** Every move brings the run closer to its end. */
  lemma MoveLowersMeasure(c: Setup, s: State, m: Move)
    requires Accounts(c, s) && Progressing(c, s) && Apply(c, s, m).Some?
    ensures Measure(c, Apply(c, s, m).value) < Measure(c, s)
  {
    var t := Apply(c, s, m).value;
    if m.Launch? {
      RanksUpdate(c.jobs, s.phases, s.main.next, t.phases[s.main.next]);
    } else if !m.Check? {
      JobSteps(c, s, m);
      RanksUpdate(c.jobs, s.phases, m.job, t.phases[m.job]);
    }
  }

  /** No run is longer than the measure of its first state. */
  lemma {:induction false} RunsEnd(c: Setup, s: State, ms: seq<Move>)
    requires Accounts(c, s) && Progressing(c, s) && Moves(c, s, ms).Some?
    ensures |ms| <= Measure(c, s)
    decreases |ms|
  {
    if ms != [] {
      MoveAccounts(c, s, ms[0]);
      MoveProgressing(c, s, ms[0]);
      MoveLowersMeasure(c, s, ms[0]);
      RunsEnd(c, Apply(c, s, ms[0]).value, ms[1..]);
    }
  }

  /** The move goes on with the work: a failure counts only of a job whose next action cannot succeed. */
  ghost predicate GoesOn(c: Setup, s: State, m: Move)
    requires |s.phases| == |c.jobs|
  {
    && Apply(c, s, m).Some? && !m.Cancel?
    && (m.Fail? ==>
          var p := s.phases[m.job];
          && c.jobs[m.job].ImageJob? && p.Working? && p.pc < c.jobs[m.job].Ops()
          && Step(c.jobs[m.job].program[p.pc], RepoAt(s.cache, c.jobs[m.job].repo), p.local).Err?)
  }

  /** Until the call can return, some job or the loop can go on, without counting on a failure or a
      cancellation: no interleaving deadlocks. */
  lemma NoDeadlock(c: Setup, s: State)
    requires Reachable(c, s) && !Over(s)
    ensures |s.phases| == |c.jobs| && exists m :: GoesOn(c, s, m)
  {
    ReachableIsSound(c, s);
    SomeoneGoesOn(c, s);
  }

  /** And so every run can be finished. */
  lemma {:induction false} CanFinish(c: Setup, s: State) returns (ms: seq<Move>)
    requires Accounts(c, s) && Progressing(c, s)
    ensures Moves(c, s, ms).Some? && Over(Moves(c, s, ms).value)
    decreases Measure(c, s)
  {
    if Over(s) {
      return [];
    }
    SomeoneGoesOn(c, s);
    var m :| GoesOn(c, s, m);
    MoveAccounts(c, s, m);
    MoveProgressing(c, s, m);
    MoveLowersMeasure(c, s, m);
    var rest := CanFinish(c, Apply(c, s, m).value);
    ms := [m] + rest;
    assert ms[1..] == rest;
  }

  lemma SomeoneGoesOn(c: Setup, s: State)
    requires Accounts(c, s) && Progressing(c, s) && !Over(s)
    ensures exists m :: GoesOn(c, s, m)
  {
    if j :| 0 <= j < |c.jobs| && (s.phases[j].Working? || s.phases[j].Unlocking?) {
      InsideMoves(c, s, j);
    } else if j :| 0 <= j < |c.jobs| && (s.phases[j].LeavingGlobal? || s.phases[j].LeavingHost?) {
      HoldingCounts(c, s, j);
      assert GoesOn(c, s, Advance(j));
    } else if j :| 0 <= j < |c.jobs| && (s.phases[j].WantRepo? || s.phases[j].WantGlobal? || s.phases[j].WantHost?) {
      FirstWaiterMoves(c, s, j);
    } else if s.main.Launching? {
      assert GoesOn(c, s, Launch);
    } else {
      assert s.main.Checking?;
      assert GoesOn(c, s, Check);
    }
  }

  /** With nobody inside or leaving, the waiters furthest on find what they wait for free. */
  lemma FirstWaiterMoves(c: Setup, s: State, j: nat)
    requires Accounts(c, s) && j < |c.jobs|
    requires s.phases[j].WantRepo? || s.phases[j].WantGlobal? || s.phases[j].WantHost?
    requires forall i :: 0 <= i < |c.jobs| ==>
                           !s.phases[i].HoldsRepo() && !s.phases[i].LeavingGlobal? && !s.phases[i].LeavingHost?
    ensures exists m :: GoesOn(c, s, m)
  {
    if i :| 0 <= i < |c.jobs| && s.phases[i].WantRepo? {
      assert Fits(c, s.phases[i], i);
      assert GoesOn(c, s, Advance(i));
    } else if i :| 0 <= i < |c.jobs| && s.phases[i].WantGlobal? {
      assert GlobalHolders(s.phases) == {};
      assert GoesOn(c, s, Advance(i));
    } else {
      assert Fits(c, s.phases[j], j);
      HoldingCounts(c, s, j);
      assert HostHolders(c, s.phases, c.jobs[j].host) == {};
      assert GoesOn(c, s, Advance(j));
    }
  }

  /** A job inside its repository performs its next operation, or fails when that cannot succeed. */
  lemma InsideMoves(c: Setup, s: State, j: nat)
    requires Accounts(c, s) && j < |c.jobs| && (s.phases[j].Working? || s.phases[j].Unlocking?)
    ensures GoesOn(c, s, Advance(j)) || GoesOn(c, s, Fail(j, None))
  {
    assert Fits(c, s.phases[j], j);
  }

  // ---- errors

  lemma MoveKeepsError(c: Setup, s: State, m: Move)
    requires |s.phases| == |c.jobs| && Apply(c, s, m).Some? && s.firstErr.Some?
    ensures Apply(c, s, m).value.firstErr == s.firstErr
  {
  }

  /** The recorded error never changes. */
  lemma {:induction false} FirstErrorStays(c: Setup, s: State, ms: seq<Move>)
    requires |s.phases| == |c.jobs| && Moves(c, s, ms).Some? && s.firstErr.Some?
    ensures Moves(c, s, ms).value.firstErr == s.firstErr
    decreases |ms|
  {
    if ms != [] {
      MoveKeepsError(c, s, ms[0]);
      FirstErrorStays(c, Apply(c, s, ms[0]).value, ms[1..]);
    }
  }

  /** After the first error at most the job that the loop had just let pass is still started. */
  lemma {:induction false} ErrorStopsLaunches(c: Setup, s: State, ms: seq<Move>)
    requires |s.phases| == |c.jobs| && Moves(c, s, ms).Some? && s.firstErr.Some?
    ensures var t := Moves(c, s, ms).value;
            forall j :: 0 <= j < |c.jobs| && s.phases[j].NotStarted? && !t.phases[j].NotStarted? ==>
              s.main == Launching(j)
    decreases |ms|
  {
    if ms != [] {
      MoveKeepsError(c, s, ms[0]);
      MoveStartsOne(c, s, ms[0]);
      ErrorStopsLaunches(c, Apply(c, s, ms[0]).value, ms[1..]);
    }
  }

  lemma MoveStartsOne(c: Setup, s: State, m: Move)
    requires |s.phases| == |c.jobs| && Apply(c, s, m).Some? && s.firstErr.Some?
    ensures var t := Apply(c, s, m).value;
            && (t.main.Launching? ==> t.main == s.main)
            && forall j :: 0 <= j < |c.jobs| && s.phases[j].NotStarted? && !t.phases[j].NotStarted? ==>
                 s.main == Launching(j) && t.main == Checking(j + 1)
  {
    match m
    case Check =>
    case Launch =>
    case Advance(k) => ForwardStartsNone(c, s, k);
    case Fail(k, left) =>
    case Cancel(k) =>
  }

  lemma ForwardStartsNone(c: Setup, s: State, k: nat)
    requires |s.phases| == |c.jobs| && k < |c.jobs| && Forward(c, s, k).Some?
    ensures var t := Forward(c, s, k).value;
            t.main == s.main && forall j :: 0 <= j < |c.jobs| && s.phases[j].NotStarted? ==> t.phases[j].NotStarted?
  {
    match s.phases[k]
    case WantHost =>
    case WantGlobal =>
    case WantRepo =>
    case Working(_, _) =>
    case Unlocking(_) =>
    case LeavingGlobal(_) =>
    case LeavingHost(_) =>
    case NotStarted => assert false;
    case Ended(_) => assert false;
  }

  /** A job that holds a slot of the global limit, or has held one. */
  predicate HadSlot(p: Phase) {
    !p.Reached(Cancelled) && (p.HoldsGlobal() || p.LeavingHost? || p.Ended?)
  }

  /** Cancellation only takes jobs that still wait for a slot: a job that got one runs until it completes or
      fails by itself. */
  lemma {:induction false} SlotsAreNotCancelled(c: Setup, s: State, ms: seq<Move>, j: nat)
    requires |s.phases| == |c.jobs| && j < |c.jobs| && Moves(c, s, ms).Some?
    requires Accounts(c, s) && Progressing(c, s) && HadSlot(s.phases[j])
    ensures HadSlot(Moves(c, s, ms).value.phases[j])
    decreases |ms|
  {
    if ms != [] {
      MoveKeepsSlot(c, s, ms[0], j);
      MoveAccounts(c, s, ms[0]);
      MoveProgressing(c, s, ms[0]);
      SlotsAreNotCancelled(c, Apply(c, s, ms[0]).value, ms[1..], j);
    }
  }

  lemma MoveKeepsSlot(c: Setup, s: State, m: Move, j: nat)
    requires |s.phases| == |c.jobs| && j < |c.jobs| && Apply(c, s, m).Some?
    requires Progressing(c, s) && HadSlot(s.phases[j])
    ensures HadSlot(Apply(c, s, m).value.phases[j])
  {
    match m
    case Check =>
    case Launch =>
    case Advance(k) => ForwardKeepsSlot(c, s, k, j);
    case Fail(k, left) =>
    case Cancel(k) =>
  }

  lemma ForwardKeepsSlot(c: Setup, s: State, k: nat, j: nat)
    requires |s.phases| == |c.jobs| && j < |c.jobs| && k < |c.jobs| && Forward(c, s, k).Some?
    requires HadSlot(s.phases[j])
    ensures HadSlot(Forward(c, s, k).value.phases[j])
  {
    match s.phases[k]
    case WantHost =>
    case WantGlobal =>
    case WantRepo =>
    case Working(_, _) =>
    case Unlocking(_) =>
    case LeavingGlobal(_) =>
    case LeavingHost(_) =>
    case NotStarted => assert false;
    case Ended(_) => assert false;
  }

  /** The call returns nil exactly when every job completed, and otherwise the error of a job that
      failed. */
  lemma NilMeansAllCompleted(c: Setup, s: State)
    requires Reachable(c, s) && Over(s)
    ensures |s.phases| == |c.jobs|
    ensures s.firstErr.None? <==> forall p :: p in s.phases ==> p == Ended(Completed)
    ensures s.firstErr.Some? ==> s.firstErr.value < |c.jobs| && s.phases[s.firstErr.value] == Ended(Failed)
  {
    ReachableIsSound(c, s);
    if s.firstErr.None? {
      forall j | 0 <= j < |c.jobs|
        ensures s.phases[j] == Ended(Completed)
      {
        assert s.phases[j] in s.phases;
      }
    } else {
      assert s.phases[s.firstErr.value] in s.phases;
    }
  }
}
