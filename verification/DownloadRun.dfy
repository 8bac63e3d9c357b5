/** The concurrent download of pending jobs as a state machine: one move is one action of the loop that
    starts the jobs or of one job, and a run is any sequence of enabled moves. */
module DownloadRun {
  import opened Results
  import opened Oci
  import opened ImageStore

  /** A job is a file download or the file operations that store one image in its repository. */
  datatype Job = FileJob(name: string) | ImageJob(repo: string, host: string, program: seq<Op>) {
    function Ops(): nat {
      if ImageJob? then |program| else 0
    }
  }

  /** What one call is given: the jobs, the requested concurrency, the per-registry limits, and the
      cache it starts from. */
  datatype Setup = Setup(jobs: seq<Job>, concurrency: int, limits: map<string, int>, cache: map<string, Repo>) {
    /** Capacity of the global semaphore. */
    function Slots(): nat {
      var wanted := if concurrency <= 0 then 4 else concurrency;
      if wanted > |jobs| then |jobs| else wanted
    }

    /** Only an image job of a registry with a positive limit has a host semaphore. */
    predicate Limited(j: nat)
      requires j < |jobs|
    {
      jobs[j].ImageJob? && jobs[j].host in limits && limits[jobs[j].host] > 0
    }
  }

  datatype Outcome = Completed | Failed | Cancelled

  datatype Phase =
    | NotStarted
    | WantHost
    | WantGlobal
    | WantRepo
    | Working(pc: nat, local: Local)
    | Unlocking(outcome: Outcome)
    | LeavingGlobal(outcome: Outcome)
    | LeavingHost(outcome: Outcome)
    | Ended(outcome: Outcome)
  {
    predicate HoldsHost() { WantGlobal? || HoldsGlobal() || LeavingHost? }
    predicate HoldsGlobal() { WantRepo? || Working? || Unlocking? || LeavingGlobal? }
    predicate HoldsRepo() { Working? || Unlocking? }

    predicate Reached(o: Outcome) {
      (Unlocking? || LeavingGlobal? || LeavingHost? || Ended?) && outcome == o
    }
  }

  datatype Main = Checking(next: nat) | Launching(next: nat) | Waiting

  /** A job's stay inside its repository's lock: the number of operations it performed, and what the next
      one left in the file it was writing when it went wrong. */
  datatype Visit = Visit(job: nat, ops: nat, left: Option<Blob>)

  /** locks names the job that holds each locked repository. */
  datatype State = State(
    main: Main,
    phases: seq<Phase>,
    global: nat,
    hosts: map<string, nat>,
    locks: map<string, nat>,
    firstErr: Option<nat>,
    cache: map<string, Repo>,
    log: seq<Visit>)

  function Start(c: Setup): State {
    State(
      Checking(0),
      seq(|c.jobs|, i => NotStarted),
      0,
      map h | h in c.limits && c.limits[h] > 0 :: 0,
      map[],
      None,
      c.cache,
      [])
  }

  datatype Move = Check | Launch | Advance(job: nat) | Fail(job: nat, left: Option<Blob>) | Cancel(job: nat)

  function To(s: State, j: nat, p: Phase): State
    requires j < |s.phases|
  {
    s.(phases := s.phases[j := p])
  }

  /** The state after a move, nothing when the move is not enabled. */
  function Apply(c: Setup, s: State, m: Move): (r: Option<State>)
    requires |s.phases| == |c.jobs|
    ensures r.Some? ==> |r.value.phases| == |c.jobs|
  {
    match m
    case Check =>
      if !s.main.Checking? then None
      else if s.main.next < |c.jobs| && s.firstErr.None? then Some(s.(main := Launching(s.main.next)))
      else Some(s.(main := Waiting))
    case Launch =>
      if !s.main.Launching? || s.main.next >= |c.jobs| then None
      else
        var j := s.main.next;
        Some(To(s, j, if c.Limited(j) then WantHost else WantGlobal).(main := Checking(j + 1)))
    case Advance(j) => if j < |c.jobs| then Forward(c, s, j) else None
    case Fail(j, left) =>
      if j < |c.jobs| && s.phases[j].Working? &&
        s.phases[j].pc < (if c.jobs[j].ImageJob? then c.jobs[j].Ops() else 1) then
        var t := s.(firstErr := if s.firstErr.None? then Some(j) else s.firstErr, cache := Spoiled(c, s, j, left));
        Some(Finish(c, t, j, Failed, left))
      else None
    case Cancel(j) =>
      if j < |c.jobs| && s.firstErr.Some? && s.phases[j].WantHost? then Some(To(s, j, Ended(Cancelled)))
      else if j < |c.jobs| && s.firstErr.Some? && s.phases[j].WantGlobal? then
        Some(To(s, j, if c.Limited(j) then LeavingHost(Cancelled) else Ended(Cancelled)))
      else None
  }

  /** The cache after the next operation of a job went wrong. */
  function Spoiled(c: Setup, s: State, j: nat, left: Option<Blob>): map<string, Repo>
    requires |s.phases| == |c.jobs| && j < |c.jobs| && s.phases[j].Working?
  {
    var job, p := c.jobs[j], s.phases[j];
    if job.FileJob? || p.pc >= job.Ops() then s.cache
    else s.cache[job.repo := Damage(job.program[p.pc], RepoAt(s.cache, job.repo), p.local, left)]
  }

  /** The body of a job is over: an image job goes on to unlock its repository. */
  function Finish(c: Setup, s: State, j: nat, o: Outcome, left: Option<Blob>): State
    requires |s.phases| == |c.jobs| && j < |c.jobs| && s.phases[j].Working?
  {
    if c.jobs[j].ImageJob? then To(s, j, Unlocking(o)).(log := s.log + [Visit(j, s.phases[j].pc, left)])
    else To(s, j, LeavingGlobal(o))
  }

  /** The next action of a job when it succeeds. */
  function Forward(c: Setup, s: State, j: nat): (r: Option<State>)
    requires |s.phases| == |c.jobs| && j < |c.jobs|
    ensures r.Some? ==> |r.value.phases| == |c.jobs|
  {
    var job := c.jobs[j];
    match s.phases[j]
    case WantHost =>
      if job.ImageJob? && job.host in s.hosts && job.host in c.limits && s.hosts[job.host] < c.limits[job.host]
      then Some(To(s, j, WantGlobal).(hosts := s.hosts[job.host := s.hosts[job.host] + 1]))
      else None
    case WantGlobal =>
      if s.global < c.Slots()
      then Some(To(s, j, if job.ImageJob? then WantRepo else Working(0, NO_LOCAL)).(global := s.global + 1))
      else None
    case WantRepo =>
      if job.ImageJob? && job.repo !in s.locks
      then Some(To(s, j, Working(0, NO_LOCAL)).(locks := s.locks[job.repo := j]))
      else None
    case Working(pc, local) =>
      if job.FileJob? || pc == job.Ops() then Some(Finish(c, s, j, Completed, None))
      else if pc > job.Ops() then None
      else
        (match Step(job.program[pc], RepoAt(s.cache, job.repo), local)
         case Err => None
         case Ok((r, x)) => Some(To(s, j, Working(pc + 1, x)).(cache := s.cache[job.repo := r])))
    case Unlocking(o) =>
      if job.ImageJob? then Some(To(s, j, LeavingGlobal(o)).(locks := s.locks - {job.repo})) else None
    case LeavingGlobal(o) =>
      if s.global == 0 then None
      else Some(To(s, j, if c.Limited(j) then LeavingHost(o) else Ended(o)).(global := s.global - 1))
    case LeavingHost(o) =>
      if job.ImageJob? && job.host in s.hosts && s.hosts[job.host] > 0
      then Some(To(s, j, Ended(o)).(hosts := s.hosts[job.host := s.hosts[job.host] - 1]))
      else None
    case _ => None
  }

  function Moves(c: Setup, s: State, ms: seq<Move>): (r: Option<State>)
    requires |s.phases| == |c.jobs|
    ensures r.Some? ==> |r.value.phases| == |c.jobs|
    decreases |ms|
  {
    if ms == [] then Some(s)
    else match Apply(c, s, ms[0])
      case None => None
      case Some(t) => Moves(c, t, ms[1..])
  }

  lemma {:induction false} OneMoreMove(c: Setup, s: State, ms: seq<Move>, m: Move)
    requires |s.phases| == |c.jobs| && Moves(c, s, ms).Some?
    ensures Moves(c, s, ms + [m]) == Apply(c, Moves(c, s, ms).value, m)
    decreases |ms|
  {
    if ms == [] {
      assert Apply(c, s, m).Some? ==> Moves(c, Apply(c, s, m).value, []) == Apply(c, s, m);
    } else {
      assert (ms + [m])[1..] == ms[1..] + [m];
      OneMoreMove(c, Apply(c, s, ms[0]).value, ms[1..], m);
    }
  }

  ghost predicate Reachable(c: Setup, s: State) {
    exists ms: seq<Move> :: Moves(c, Start(c), ms) == Some(s)
  }

  /** Every started job has ended: the call returns firstErr. */
  predicate Over(s: State) {
    s.main.Waiting? && forall p | p in s.phases :: p.NotStarted? || p.Ended?
  }

  // ---- who holds what

  ghost function GlobalHolders(ps: seq<Phase>): set<nat> {
    set j: nat | j < |ps| && ps[j].HoldsGlobal()
  }

  ghost function HostHolders(c: Setup, ps: seq<Phase>, h: string): set<nat>
    requires |ps| == |c.jobs|
  {
    set j: nat | j < |ps| && AtHost(c, j, h, ps[j])
  }

  /** A job's phase fits its kind. */
  ghost predicate Fits(c: Setup, p: Phase, j: nat)
    requires j < |c.jobs|
  {
    && (p.WantHost? || p.LeavingHost? ==> c.Limited(j))
    && (p.WantRepo? || p.Unlocking? ==> c.jobs[j].ImageJob?)
    && (p.Working? ==> p.pc <= c.jobs[j].Ops())
  }

  ghost predicate Accounts(c: Setup, s: State) {
    && |s.phases| == |c.jobs|
    && (forall j :: 0 <= j < |c.jobs| ==> Fits(c, s.phases[j], j))
    && s.global == |GlobalHolders(s.phases)| <= c.Slots()
    && (forall h :: h in s.hosts <==> h in c.limits && c.limits[h] > 0)
    && (forall h :: h in s.hosts ==> s.hosts[h] == |HostHolders(c, s.phases, h)| <= c.limits[h])
    && LocksAgree(c, s.phases, s.locks)
  }

  /** A repository is locked by the one image job that is inside it. */
  ghost predicate LocksAgree(c: Setup, ps: seq<Phase>, locks: map<string, nat>)
    requires |ps| == |c.jobs|
  {
    && (forall j :: 0 <= j < |ps| && c.jobs[j].ImageJob? && ps[j].HoldsRepo() ==>
          c.jobs[j].repo in locks && locks[c.jobs[j].repo] == j)
    && (forall n :: n in locks ==>
          locks[n] < |ps| && c.jobs[locks[n]].ImageJob? && c.jobs[locks[n]].repo == n && ps[locks[n]].HoldsRepo())
  }

  ghost predicate StartedBefore(ps: seq<Phase>, next: nat) {
    forall j :: 0 <= j < |ps| ==> (ps[j].NotStarted? <==> j >= next)
  }

  /** Started jobs are those before the loop's position; outcomes agree with the recorded error. */
  ghost predicate Progressing(c: Setup, s: State) {
    && |s.phases| == |c.jobs|
    && (match s.main
        case Waiting => forall j :: 0 <= j < |c.jobs| && s.phases[j].NotStarted? ==> s.firstErr.Some?
        case Checking(next) => next <= |c.jobs| && StartedBefore(s.phases, next)
        case Launching(next) => next < |c.jobs| && StartedBefore(s.phases, next))
    && (forall j :: 0 <= j < |c.jobs| && (s.phases[j].Reached(Failed) || s.phases[j].Reached(Cancelled)) ==>
          s.firstErr.Some?)
    && (s.firstErr.Some? ==> s.firstErr.value < |c.jobs| && s.phases[s.firstErr.value].Reached(Failed))
  }

  // ---- the accounts are kept

  lemma GlobalCount(ps: seq<Phase>, j: nat, p: Phase)
    requires j < |ps|
    ensures |GlobalHolders(ps[j := p])| + One(ps[j].HoldsGlobal()) == |GlobalHolders(ps)| + One(p.HoldsGlobal())
  {
    assert j in GlobalHolders(ps) <==> ps[j].HoldsGlobal();
    assert GlobalHolders(ps[j := p]) ==
           if p.HoldsGlobal() then GlobalHolders(ps) + {j} else GlobalHolders(ps) - {j};
  }

  lemma HostCount(c: Setup, ps: seq<Phase>, j: nat, p: Phase, h: string)
    requires |ps| == |c.jobs| && j < |ps|
    ensures |HostHolders(c, ps[j := p], h)| + One(AtHost(c, j, h, ps[j])) ==
            |HostHolders(c, ps, h)| + One(AtHost(c, j, h, p))
  {
    assert j in HostHolders(c, ps, h) <==> AtHost(c, j, h, ps[j]);
    assert HostHolders(c, ps[j := p], h) ==
           if AtHost(c, j, h, p) then HostHolders(c, ps, h) + {j} else HostHolders(c, ps, h) - {j};
  }

  lemma StartAccounts(c: Setup)
    ensures Accounts(c, Start(c)) && Progressing(c, Start(c))
  {
    assert GlobalHolders(Start(c).phases) == {};
    forall h
      ensures HostHolders(c, Start(c).phases, h) == {}
    {
    }
  }

  ghost function One(b: bool): int { if b then 1 else 0 }

  ghost predicate AtHost(c: Setup, j: nat, h: string, p: Phase)
    requires j < |c.jobs|
  {
    c.Limited(j) && c.jobs[j].host == h && p.HoldsHost()
  }

  /** Locking or unlocking as the job enters or leaves its repository. */
  ghost predicate LockStep(c: Setup, s: State, t: State, j: nat, p: Phase)
    requires j < |c.jobs| == |s.phases|
  {
    if c.jobs[j].ImageJob? && p.HoldsRepo() && !s.phases[j].HoldsRepo() then
      c.jobs[j].repo !in s.locks && t.locks == s.locks[c.jobs[j].repo := j]
    else if c.jobs[j].ImageJob? && !p.HoldsRepo() && s.phases[j].HoldsRepo() then
      t.locks == s.locks - {c.jobs[j].repo}
    else t.locks == s.locks
  }

  /** The counters and locks follow what the job's new phase holds. */
  ghost predicate Follows(c: Setup, s: State, t: State, j: nat, p: Phase)
    requires j < |c.jobs| == |s.phases|
  {
    && t.phases == s.phases[j := p] && Fits(c, p, j)
    && t.global + One(s.phases[j].HoldsGlobal()) == s.global + One(p.HoldsGlobal())
    && t.global <= c.Slots()
    && HostsFollow(c, s, t, j, p)
    && LockStep(c, s, t, j, p)
  }

  ghost predicate HostsFollow(c: Setup, s: State, t: State, j: nat, p: Phase)
    requires j < |c.jobs| == |s.phases|
  {
    && t.hosts.Keys == s.hosts.Keys
    && forall h :: h in s.hosts ==>
         && t.hosts[h] + One(AtHost(c, j, h, s.phases[j])) == s.hosts[h] + One(AtHost(c, j, h, p))
         && (h in c.limits ==> t.hosts[h] <= c.limits[h])
  }

  lemma FollowingAccounts(c: Setup, s: State, t: State, j: nat, p: Phase)
    requires Accounts(c, s) && j < |c.jobs| && Follows(c, s, t, j, p)
    ensures Accounts(c, t)
  {
    GlobalCount(s.phases, j, p);
    forall h | h in t.hosts
      ensures t.hosts[h] == |HostHolders(c, t.phases, h)| <= c.limits[h]
    {
      HostCount(c, s.phases, j, p, h);
    }
    LocksAccounted(c, s, t, j, p);
  }

  lemma LocksAccounted(c: Setup, s: State, t: State, j: nat, p: Phase)
    requires Accounts(c, s) && j < |c.jobs| && t.phases == s.phases[j := p] && LockStep(c, s, t, j, p)
    ensures LocksAgree(c, t.phases, t.locks)
  {
  }

  lemma HoldingCounts(c: Setup, s: State, j: nat)
    requires Accounts(c, s) && j < |c.jobs|
    ensures s.phases[j].HoldsGlobal() ==> s.global > 0
    ensures c.Limited(j) ==> c.jobs[j].host in s.hosts
    ensures c.Limited(j) && s.phases[j].HoldsHost() ==> s.hosts[c.jobs[j].host] > 0
  {
    assert s.phases[j].HoldsGlobal() ==> j in GlobalHolders(s.phases);
    if c.Limited(j) && s.phases[j].HoldsHost() {
      assert j in HostHolders(c, s.phases, c.jobs[j].host);
    }
  }

  /** A phase change that holds the same as before. */
  lemma SameHoldings(c: Setup, s: State, t: State, j: nat, p: Phase)
    requires Accounts(c, s) && j < |c.jobs| && t.phases == s.phases[j := p] && Fits(c, p, j)
    requires t.global == s.global && t.hosts == s.hosts && t.locks == s.locks
    requires p.HoldsGlobal() == s.phases[j].HoldsGlobal()
    requires c.jobs[j].ImageJob? ==> p.HoldsRepo() == s.phases[j].HoldsRepo()
    requires c.Limited(j) ==> p.HoldsHost() == s.phases[j].HoldsHost()
    ensures Follows(c, s, t, j, p)
  {
  }

  lemma HostFollows(c: Setup, s: State, j: nat)
    requires Accounts(c, s) && j < |c.jobs| && Forward(c, s, j).Some?
    requires s.phases[j].WantHost? || s.phases[j].LeavingHost?
    ensures var t := Forward(c, s, j).value; Follows(c, s, t, j, t.phases[j])
  {
    HoldingCounts(c, s, j);
  }

  lemma GlobalFollows(c: Setup, s: State, j: nat)
    requires Accounts(c, s) && j < |c.jobs| && Forward(c, s, j).Some?
    requires s.phases[j].WantGlobal? || s.phases[j].LeavingGlobal?
    ensures var t := Forward(c, s, j).value; Follows(c, s, t, j, t.phases[j])
  {
    HoldingCounts(c, s, j);
  }

  lemma RepoFollows(c: Setup, s: State, j: nat)
    requires Accounts(c, s) && j < |c.jobs| && Forward(c, s, j).Some?
    requires s.phases[j].WantRepo? || s.phases[j].Unlocking?
    ensures var t := Forward(c, s, j).value; Follows(c, s, t, j, t.phases[j])
  {
    HoldingCounts(c, s, j);
  }

  lemma MoveAccounts(c: Setup, s: State, m: Move)
    requires Accounts(c, s) && Progressing(c, s) && Apply(c, s, m).Some?
    ensures Accounts(c, Apply(c, s, m).value)
  {
    var t := Apply(c, s, m).value;
    if m.Launch? {
      SameHoldings(c, s, t, s.main.next, t.phases[s.main.next]);
      FollowingAccounts(c, s, t, s.main.next, t.phases[s.main.next]);
    } else if !m.Check? {
      JobFollows(c, s, m);
      FollowingAccounts(c, s, t, m.job, t.phases[m.job]);
    }
  }

  lemma JobFollows(c: Setup, s: State, m: Move)
    requires Accounts(c, s) && Apply(c, s, m).Some? && !m.Check? && !m.Launch?
    ensures m.job < |c.jobs|
    ensures var t := Apply(c, s, m).value; Follows(c, s, t, m.job, t.phases[m.job])
  {
    var j, t := m.job, Apply(c, s, m).value;
    var p := s.phases[j];
    if m.Advance? && (p.WantHost? || p.LeavingHost?) {
      HostFollows(c, s, j);
    } else if m.Advance? && (p.WantGlobal? || p.LeavingGlobal?) {
      GlobalFollows(c, s, j);
    } else if m.Advance? && (p.WantRepo? || p.Unlocking?) {
      RepoFollows(c, s, j);
    } else {
      QuietFollows(c, s, m);
    }
  }

  lemma QuietFollows(c: Setup, s: State, m: Move)
    requires Accounts(c, s) && Apply(c, s, m).Some? && !m.Check? && !m.Launch?
    requires m.job < |c.jobs| && (m.Advance? ==> s.phases[m.job].Working?)
    ensures var t := Apply(c, s, m).value; Follows(c, s, t, m.job, t.phases[m.job])
  {
    QuietPhase(c, s, m);
    var j, t := m.job, Apply(c, s, m).value;
    SameHoldings(c, s, t, j, t.phases[j]);
  }

  lemma QuietPhase(c: Setup, s: State, m: Move)
    requires |s.phases| == |c.jobs| && Apply(c, s, m).Some? && !m.Check? && !m.Launch?
    requires m.job < |c.jobs| && (m.Advance? ==> s.phases[m.job].Working?) && Fits(c, s.phases[m.job], m.job)
    ensures var t := Apply(c, s, m).value;
            var p, q := s.phases[m.job], t.phases[m.job];
            && t.phases == s.phases[m.job := q] && t.global == s.global && t.hosts == s.hosts && t.locks == s.locks
            && p.HoldsGlobal() == q.HoldsGlobal() && (c.Limited(m.job) ==> p.HoldsHost() == q.HoldsHost())
            && (c.jobs[m.job].ImageJob? ==> p.HoldsRepo() == q.HoldsRepo())
            && Fits(c, q, m.job)
  {
    match m
    case Advance(j) =>
    case Fail(j, _) =>
    case Cancel(j) =>
  }

  ghost function Rank(job: Job, p: Phase): nat {
    match p
    case NotStarted => job.Ops() + 8
    case WantHost => job.Ops() + 7
    case WantGlobal => job.Ops() + 6
    case WantRepo => job.Ops() + 5
    case Working(pc, _) => if pc <= job.Ops() then job.Ops() - pc + 4 else 4
    case Unlocking(_) => 3
    case LeavingGlobal(_) => 2
    case LeavingHost(_) => 1
    case Ended(_) => 0
  }

  /** The move takes job j from its phase to q, records an error only as the first one, and brings the
      job closer to its end. */
  ghost predicate JobStep(c: Setup, s: State, t: State, j: nat, q: Phase)
    requires j < |c.jobs| == |s.phases|
  {
    var p := s.phases[j];
    && t.main == s.main && t.phases == s.phases[j := q]
    && !p.NotStarted? && !q.NotStarted?
    && (t.firstErr == s.firstErr || (s.firstErr.None? && t.firstErr == Some(j) && q.Reached(Failed)))
    && (p.Reached(Failed) ==> q.Reached(Failed))
    && (q.Reached(Failed) && !p.Reached(Failed) ==> t.firstErr.Some?)
    && (q.Reached(Cancelled) && !p.Reached(Cancelled) ==> s.firstErr.Some?)
    && Rank(c.jobs[j], q) < Rank(c.jobs[j], p)
  }

  lemma AdvanceSteps(c: Setup, s: State, j: nat)
    requires |s.phases| == |c.jobs| && j < |c.jobs| && Fits(c, s.phases[j], j) && Forward(c, s, j).Some?
    ensures var t := Forward(c, s, j).value; JobStep(c, s, t, j, t.phases[j])
  {
    if s.phases[j].Working? {
      WorkSteps(c, s, j);
    } else if s.phases[j].WantHost? || s.phases[j].WantGlobal? || s.phases[j].WantRepo? {
      WantSteps(c, s, j);
    } else {
      LeaveSteps(c, s, j);
    }
  }

  lemma WantSteps(c: Setup, s: State, j: nat)
    requires |s.phases| == |c.jobs| && j < |c.jobs| && Fits(c, s.phases[j], j) && Forward(c, s, j).Some?
    requires s.phases[j].WantHost? || s.phases[j].WantGlobal? || s.phases[j].WantRepo?
    ensures var t := Forward(c, s, j).value; JobStep(c, s, t, j, t.phases[j])
  {
  }

  lemma LeaveSteps(c: Setup, s: State, j: nat)
    requires |s.phases| == |c.jobs| && j < |c.jobs| && Fits(c, s.phases[j], j) && Forward(c, s, j).Some?
    requires s.phases[j].Unlocking? || s.phases[j].LeavingGlobal? || s.phases[j].LeavingHost?
    ensures var t := Forward(c, s, j).value; JobStep(c, s, t, j, t.phases[j])
  {
  }

  lemma WorkSteps(c: Setup, s: State, j: nat)
    requires |s.phases| == |c.jobs| && j < |c.jobs| && Fits(c, s.phases[j], j) && Forward(c, s, j).Some?
    requires s.phases[j].Working?
    ensures var t := Forward(c, s, j).value; JobStep(c, s, t, j, t.phases[j])
  {
  }

  lemma JobSteps(c: Setup, s: State, m: Move)
    requires Accounts(c, s) && Apply(c, s, m).Some? && !m.Check? && !m.Launch?
    ensures m.job < |c.jobs|
    ensures var t := Apply(c, s, m).value; JobStep(c, s, t, m.job, t.phases[m.job])
  {
    if m.Advance? {
      assert Fits(c, s.phases[m.job], m.job);
      AdvanceSteps(c, s, m.job);
    } else {
      StopSteps(c, s, m);
    }
  }

  /** A job fails or is cancelled. */
  lemma StopSteps(c: Setup, s: State, m: Move)
    requires Accounts(c, s) && Apply(c, s, m).Some? && (m.Fail? || m.Cancel?)
    ensures m.job < |c.jobs|
    ensures var t := Apply(c, s, m).value; JobStep(c, s, t, m.job, t.phases[m.job])
  {
    assert Fits(c, s.phases[m.job], m.job);
    if m.Fail? {
      FailSteps(c, s, m.job, m.left);
    } else {
      CancelSteps(c, s, m.job);
    }
  }

  lemma FailSteps(c: Setup, s: State, j: nat, left: Option<Blob>)
    requires |s.phases| == |c.jobs| && j < |c.jobs| && Fits(c, s.phases[j], j) && Apply(c, s, Fail(j, left)).Some?
    ensures var t := Apply(c, s, Fail(j, left)).value; JobStep(c, s, t, j, t.phases[j])
  {
  }

  lemma CancelSteps(c: Setup, s: State, j: nat)
    requires |s.phases| == |c.jobs| && j < |c.jobs| && Fits(c, s.phases[j], j) && Apply(c, s, Cancel(j)).Some?
    ensures var t := Apply(c, s, Cancel(j)).value; JobStep(c, s, t, j, t.phases[j])
  {
  }

  lemma MoveProgressing(c: Setup, s: State, m: Move)
    requires Accounts(c, s) && Progressing(c, s) && Apply(c, s, m).Some?
    ensures Progressing(c, Apply(c, s, m).value)
  {
    if !m.Check? && !m.Launch? {
      JobSteps(c, s, m);
      var t := Apply(c, s, m).value;
      StepProgressing(c, s, t, m.job, t.phases[m.job]);
    }
  }

  lemma StepProgressing(c: Setup, s: State, t: State, j: nat, q: Phase)
    requires Progressing(c, s) && j < |c.jobs| && JobStep(c, s, t, j, q)
    ensures Progressing(c, t)
  {
  }

  lemma {:induction false} MovesAreSound(c: Setup, s: State, ms: seq<Move>)
    requires Accounts(c, s) && Progressing(c, s) && Moves(c, s, ms).Some?
    ensures Accounts(c, Moves(c, s, ms).value) && Progressing(c, Moves(c, s, ms).value)
    decreases |ms|
  {
    if ms != [] {
      MoveAccounts(c, s, ms[0]);
      MoveProgressing(c, s, ms[0]);
      MovesAreSound(c, Apply(c, s, ms[0]).value, ms[1..]);
    }
  }

  lemma ReachableIsSound(c: Setup, s: State)
    requires Reachable(c, s)
    ensures Accounts(c, s) && Progressing(c, s)
  {
    var ms: seq<Move> :| Moves(c, Start(c), ms) == Some(s);
    StartAccounts(c);
    MovesAreSound(c, Start(c), ms);
  }
}
