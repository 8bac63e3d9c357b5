/** What the concurrent download leaves in the cache, over every interleaving. */
module DownloadResult {
  import opened Results
  import opened Oci
  import opened ImageStore
  import opened ImageWrites
  import opened RepoHistory
  import opened DownloadRun
  import opened DownloadProgress
  import ImageNames
  import Texts

  // ---- every interleaving equals a serial one

  ghost predicate VisitOf(c: Setup, v: Visit, name: string) {
    v.job < |c.jobs| && c.jobs[v.job].ImageJob? && c.jobs[v.job].repo == name && v.ops <= c.jobs[v.job].Ops()
  }

  ghost function RunVisit(c: Setup, v: Visit, name: string, r: Repo): Result<Repo>
    requires VisitOf(c, v, name)
  {
    var program := c.jobs[v.job].program;
    var done :- Run(program[..v.ops], r, NO_LOCAL);
    Ok(if v.ops < |program| then Damage(program[v.ops], done.0, done.1, v.left) else done.0)
  }

  /** The repository after the logged jobs ran in it one after another, each up to its recorded point,
      with what its last write left there, and with nothing in between. */
  ghost function Replay(c: Setup, log: seq<Visit>, name: string): Repo
    decreases |log|
  {
    if log == [] then RepoAt(c.cache, name)
    else
      var v, before := log[|log| - 1], Replay(c, log[..|log| - 1], name);
      if VisitOf(c, v, name) && RunVisit(c, v, name, before).Ok? then RunVisit(c, v, name, before).value else before
  }

  /** The logged jobs that ran to their end. */
  ghost function Finished(c: Setup, log: seq<Visit>, name: string): set<nat>
    decreases |log|
  {
    if log == [] then {}
    else
      var v, init := log[|log| - 1], log[..|log| - 1];
      Finished(c, init, name) +
      if VisitOf(c, v, name) && v.ops == c.jobs[v.job].Ops() && RunVisit(c, v, name, Replay(c, init, name)).Ok?
      then {v.job} else {}
  }

  ghost predicate WorkMatches(c: Setup, s: State, j: nat)
    requires |s.phases| == |c.jobs|
  {
    j < |c.jobs| && c.jobs[j].ImageJob? && s.phases[j].Working? && s.phases[j].pc <= c.jobs[j].Ops() ==>
      Run(c.jobs[j].program[..s.phases[j].pc], Replay(c, s.log, c.jobs[j].repo), NO_LOCAL) ==
      Ok((RepoAt(s.cache, c.jobs[j].repo), s.phases[j].local))
  }

  ghost predicate Quiet(s: State, name: string) {
    name in s.locks ==> s.locks[name] < |s.phases| && !s.phases[s.locks[name]].Working?
  }

  ghost predicate Serial(c: Setup, s: State) {
    && |s.phases| == |c.jobs|
    && (forall j :: 0 <= j < |c.jobs| ==> WorkMatches(c, s, j))
    && (forall name :: Quiet(s, name) ==> RepoAt(s.cache, name) == Replay(c, s.log, name))
    && (forall j :: 0 <= j < |c.jobs| && c.jobs[j].ImageJob? && s.phases[j].Reached(Completed) ==>
          j in Finished(c, s.log, c.jobs[j].repo))
    && LogOnce(c, s)
  }

  /** Each job is logged at most once, when it leaves its repository. */
  ghost predicate LogOnce(c: Setup, s: State)
    requires |s.phases| == |c.jobs|
  {
    && (forall v :: v in s.log ==>
         && v.job < |c.jobs| && (s.phases[v.job].Reached(Completed) || s.phases[v.job].Reached(Failed))
         && (v.left.Some? ==> s.phases[v.job].Reached(Failed)))
    && forall i, k :: 0 <= i < k < |s.log| ==> s.log[i].job != s.log[k].job
  }

  lemma StartSerial(c: Setup)
    ensures Serial(c, Start(c))
  {
  }

  /** A move that neither touches the cache or the log nor starts or ends work keeps the correspondence. */
  lemma IdleSerial(c: Setup, s: State, t: State, j: nat, q: Phase)
    requires Accounts(c, s) && Accounts(c, t) && Serial(c, s) && j < |c.jobs|
    requires JobStep(c, s, t, j, q) && t.cache == s.cache && t.log == s.log
    requires c.jobs[j].ImageJob? ==> !s.phases[j].Working? && !q.Working?
    requires c.jobs[j].ImageJob? ==> !(q.Reached(Completed) && !s.phases[j].Reached(Completed))
    requires s.phases[j].Reached(Completed) ==> q.Reached(Completed)
    ensures Serial(c, t)
  {
    forall i | 0 <= i < |c.jobs|
      ensures WorkMatches(c, t, i)
    {
      assert WorkMatches(c, s, i);
    }
    forall name | Quiet(t, name)
      ensures Quiet(s, name)
    {
    }
  }

  /** A job enters its repository. */
  lemma EnterSerial(c: Setup, s: State, j: nat)
    requires Accounts(c, s) && Serial(c, s) && j < |c.jobs| && s.phases[j].WantRepo? && Forward(c, s, j).Some?
    ensures Serial(c, Forward(c, s, j).value)
  {
    var t := Forward(c, s, j).value;
    assert c.jobs[j].program[..0] == [];
    assert Quiet(s, c.jobs[j].repo);
    forall i | 0 <= i < |c.jobs|
      ensures WorkMatches(c, t, i)
    {
      assert WorkMatches(c, s, i);
    }
    forall name | Quiet(t, name)
      ensures Quiet(s, name)
    {
    }
  }

  /** A job performs one operation. */
  lemma WorkSerial(c: Setup, s: State, j: nat)
    requires Accounts(c, s) && Serial(c, s) && j < |c.jobs| && s.phases[j].Working? && Forward(c, s, j).Some?
    requires c.jobs[j].ImageJob? && s.phases[j].pc < c.jobs[j].Ops()
    ensures Serial(c, Forward(c, s, j).value)
  {
    var t := Forward(c, s, j).value;
    var name := c.jobs[j].repo;
    assert Fits(c, s.phases[j], j);
    forall i | 0 <= i < |c.jobs|
      ensures WorkMatches(c, t, i)
    {
      if i == j {
        OwnWorkMatches(c, s, j);
      } else {
        OtherWorkMatches(c, s, j, i);
      }
    }
    forall n | Quiet(t, n)
      ensures RepoAt(t.cache, n) == Replay(c, t.log, n)
    {
      assert n != name && Quiet(s, n);
    }
  }

  lemma OwnWorkMatches(c: Setup, s: State, j: nat)
    requires |s.phases| == |c.jobs| && j < |c.jobs| && s.phases[j].Working? && Forward(c, s, j).Some?
    requires c.jobs[j].ImageJob? && s.phases[j].pc < c.jobs[j].Ops() && WorkMatches(c, s, j)
    ensures WorkMatches(c, Forward(c, s, j).value, j)
  {
    RunSnoc(c.jobs[j].program, s.phases[j].pc, Replay(c, s.log, c.jobs[j].repo), NO_LOCAL);
  }

  lemma OtherWorkMatches(c: Setup, s: State, j: nat, i: nat)
    requires Accounts(c, s) && Serial(c, s) && j < |c.jobs| && s.phases[j].Working? && Forward(c, s, j).Some?
    requires c.jobs[j].ImageJob? && s.phases[j].pc < c.jobs[j].Ops() && i < |c.jobs| && i != j
    ensures WorkMatches(c, Forward(c, s, j).value, i)
  {
    assert WorkMatches(c, s, i);
    if c.jobs[i].ImageJob? && s.phases[i].Working? {
      assert c.jobs[i].repo != c.jobs[j].repo;
    }
  }

  /** The body of an image job ends: its stay becomes the last of the serial order. */
  lemma FinishSerial(c: Setup, s: State, t: State, j: nat, o: Outcome, left: Option<Blob>)
    requires Accounts(c, s) && Serial(c, s) && j < |c.jobs| && c.jobs[j].ImageJob? && s.phases[j].Working?
    requires t.phases == s.phases[j := Unlocking(o)] && t.log == s.log + [Visit(j, s.phases[j].pc, left)]
    requires t.locks == s.locks
    requires if o == Completed then s.phases[j].pc == c.jobs[j].Ops() && left.None? && t.cache == s.cache
             else o == Failed && t.cache == Spoiled(c, s, j, left)
    ensures Serial(c, t)
  {
    var v, name := Visit(j, s.phases[j].pc, left), c.jobs[j].repo;
    assert WorkMatches(c, s, j) && Fits(c, s.phases[j], j);
    assert t.log[..|t.log| - 1] == s.log && t.log[|t.log| - 1] == v;
    assert RepoAt(t.cache, name) == Replay(c, t.log, name);
    forall n | n != name
      ensures Replay(c, t.log, n) == Replay(c, s.log, n) && Finished(c, t.log, n) == Finished(c, s.log, n)
    {
    }
    FinishQuiet(c, s, t, j);
    FinishWork(c, s, t, j);
    FinishLog(c, s, t, j);
  }

  /** What the last two lemmas about a finished job need. */
  ghost predicate Finishing(c: Setup, s: State, t: State, j: nat) {
    && Accounts(c, s) && Serial(c, s) && j < |c.jobs| && c.jobs[j].ImageJob? && s.phases[j].Working?
    && |t.phases| == |s.phases| && t.phases == s.phases[j := t.phases[j]] && t.phases[j].Unlocking? &&
         t.phases[j].outcome != Cancelled
    && t.locks == s.locks && |t.log| > 0 && t.log == s.log + [t.log[|t.log| - 1]] && t.log[|t.log| - 1].job == j
    && (t.log[|t.log| - 1].left.Some? ==> t.phases[j].outcome == Failed)
    && forall n :: n != c.jobs[j].repo ==> RepoAt(t.cache, n) == RepoAt(s.cache, n)
  }

  ghost predicate OthersReplayed(c: Setup, s: State, t: State, j: nat)
    requires j < |c.jobs| && c.jobs[j].ImageJob?
  {
    forall n | n != c.jobs[j].repo ::
      Replay(c, t.log, n) == Replay(c, s.log, n) && Finished(c, t.log, n) == Finished(c, s.log, n)
  }

  lemma FinishQuiet(c: Setup, s: State, t: State, j: nat)
    requires Finishing(c, s, t, j) && OthersReplayed(c, s, t, j)
    requires RepoAt(t.cache, c.jobs[j].repo) == Replay(c, t.log, c.jobs[j].repo)
    ensures forall n :: Quiet(t, n) ==> RepoAt(t.cache, n) == Replay(c, t.log, n)
  {
    forall n | Quiet(t, n)
      ensures RepoAt(t.cache, n) == Replay(c, t.log, n)
    {
      if n != c.jobs[j].repo {
        assert Quiet(s, n);
      }
    }
  }

  lemma FinishWork(c: Setup, s: State, t: State, j: nat)
    requires Finishing(c, s, t, j) && OthersReplayed(c, s, t, j)
    ensures forall i :: 0 <= i < |c.jobs| ==> WorkMatches(c, t, i)
  {
    forall i | 0 <= i < |c.jobs|
      ensures WorkMatches(c, t, i)
    {
      assert WorkMatches(c, s, i);
      assert i != j && c.jobs[i].ImageJob? && s.phases[i].Working? ==> c.jobs[i].repo != c.jobs[j].repo;
    }
  }

  lemma FinishLog(c: Setup, s: State, t: State, j: nat)
    requires Finishing(c, s, t, j)
    ensures LogOnce(c, t)
  {
    assert forall v :: v in s.log ==> v.job != j;
  }

  lemma MoveSerial(c: Setup, s: State, m: Move)
    requires Accounts(c, s) && Progressing(c, s) && Serial(c, s) && Apply(c, s, m).Some?
    ensures Serial(c, Apply(c, s, m).value)
  {
    var t := Apply(c, s, m).value;
    MoveAccounts(c, s, m);
    if m.Check? {
      SamePhasesSerial(c, s, t);
    } else if m.Launch? {
      LaunchSerial(c, s);
    } else {
      JobSteps(c, s, m);
      JobSerial(c, s, m);
    }
  }

  lemma SamePhasesSerial(c: Setup, s: State, t: State)
    requires Serial(c, s) && t == s.(main := t.main)
    ensures Serial(c, t)
  {
    forall i | 0 <= i < |c.jobs|
      ensures WorkMatches(c, t, i)
    {
      assert WorkMatches(c, s, i);
    }
    forall n | Quiet(t, n)
      ensures Quiet(s, n)
    {
    }
  }

  lemma LaunchSerial(c: Setup, s: State)
    requires Accounts(c, s) && Progressing(c, s) && Serial(c, s) && Apply(c, s, Launch).Some?
    ensures Serial(c, Apply(c, s, Launch).value)
  {
    var t := Apply(c, s, Launch).value;
    forall i | 0 <= i < |c.jobs|
      ensures WorkMatches(c, t, i)
    {
      assert WorkMatches(c, s, i);
    }
    forall n | Quiet(t, n)
      ensures Quiet(s, n)
    {
    }
  }

  lemma JobSerial(c: Setup, s: State, m: Move)
    requires Accounts(c, s) && Serial(c, s) && Apply(c, s, m).Some? && !m.Check? && !m.Launch?
    requires m.job < |c.jobs| && Accounts(c, Apply(c, s, m).value)
    requires var t := Apply(c, s, m).value; JobStep(c, s, t, m.job, t.phases[m.job])
    ensures Serial(c, Apply(c, s, m).value)
  {
    var j, t := m.job, Apply(c, s, m).value;
    var p := s.phases[j];
    assert Fits(c, p, j);
    if m.Advance? && p.WantRepo? {
      EnterSerial(c, s, j);
    } else if c.jobs[j].ImageJob? && p.Working? {
      if m.Advance? && p.pc < c.jobs[j].Ops() {
        WorkSerial(c, s, j);
      } else {
        if m.Advance? {
          FinishSerial(c, s, t, j, Completed, None);
        } else {
          FinishSerial(c, s, t, j, Failed, m.left);
        }
      }
    } else {
      QuietMove(c, s, m);
      IdleSerial(c, s, t, j, t.phases[j]);
    }
  }

  lemma QuietMove(c: Setup, s: State, m: Move)
    requires |s.phases| == |c.jobs| && Apply(c, s, m).Some? && !m.Check? && !m.Launch?
    requires m.job < |c.jobs| && !(m.Advance? && s.phases[m.job].WantRepo?)
    requires c.jobs[m.job].ImageJob? ==> !s.phases[m.job].Working?
    ensures var t := Apply(c, s, m).value;
            var p, q := s.phases[m.job], t.phases[m.job];
            && t.cache == s.cache && t.log == s.log
            && (c.jobs[m.job].ImageJob? ==> !q.Working? && !(q.Reached(Completed) && !p.Reached(Completed)))
            && (p.Reached(Completed) ==> q.Reached(Completed))
  {
    match m
    case Fail(j, _) =>
    case Cancel(j) =>
    case Advance(j) =>
      match s.phases[j] {
        case WantHost =>
        case WantGlobal =>
        case _ =>
      }
  }

  lemma {:induction false} MovesSerial(c: Setup, s: State, ms: seq<Move>)
    requires Accounts(c, s) && Progressing(c, s) && Serial(c, s) && Moves(c, s, ms).Some?
    ensures Serial(c, Moves(c, s, ms).value)
    decreases |ms|
  {
    if ms != [] {
      MoveAccounts(c, s, ms[0]);
      MoveProgressing(c, s, ms[0]);
      MoveSerial(c, s, ms[0]);
      MovesSerial(c, Apply(c, s, ms[0]).value, ms[1..]);
    }
  }

  /** Serializability: in every reachable state each repository that no job is working in holds exactly
      what the logged jobs leave when run one after another in that order. The log has each job at most
      once, and every completed image job to its end. */
  lemma EveryRunIsSerial(c: Setup, s: State)
    requires Reachable(c, s)
    ensures Serial(c, s)
  {
    var ms: seq<Move> :| Moves(c, Start(c), ms) == Some(s);
    StartAccounts(c);
    StartSerial(c);
    MovesSerial(c, Start(c), ms);
  }

  // ---- no lost updates

  function JobFor(image: ComponentImage): Job {
    ImageJob(
      ImageNames.MirrorRepo(image.reference.repository),
      ImageNames.RegistryHost(image.reference.repository),
      Program(image))
  }

  /** The jobs of a call: images[j] is the image of job j, nothing for a file. */
  ghost predicate JobsOf(c: Setup, images: seq<Option<ComponentImage>>) {
    && |images| == |c.jobs|
    && forall j :: 0 <= j < |images| ==>
                     if images[j].Some? then c.jobs[j] == JobFor(images[j].value) else c.jobs[j].FileJob?
  }

  /** The jobs that are storing an image whose full name starts with the registry. */
  ghost function StoringFrom(images: seq<Option<ComponentImage>>, s: State, registry: string): set<nat> {
    set j: nat | j < |s.phases| && j < |images| && s.phases[j].Working? && images[j].Some? &&
                 Texts.Before(ImageNames.FullName(images[j].value.reference.repository), '/') == registry
  }

  /** At most a registry's limit of its images are being stored at once, and no two that share a full name. */
  lemma ImageLimits(c: Setup, images: seq<Option<ComponentImage>>, s: State, registry: string)
    requires JobsOf(c, images) && Reachable(c, s)
    ensures registry in c.limits && c.limits[registry] > 0 ==>
              |StoringFrom(images, s, registry)| <= c.limits[registry]
    ensures forall i, j | i in StoringFrom(images, s, registry) && j in StoringFrom(images, s, registry) && i != j ::
              ImageNames.FullName(images[i].value.reference.repository) !=
              ImageNames.FullName(images[j].value.reference.repository)
  {
    LimitsRespected(c, s, registry);
    forall j | j in StoringFrom(images, s, registry)
      ensures j in WorkersAt(c, s, registry)
      ensures c.jobs[j].repo == "mirror/" + ImageNames.FullName(images[j].value.reference.repository)
    {
      ImageNames.MirrorPlace(images[j].value.reference.repository);
    }
    SubsetSize(StoringFrom(images, s, registry), WorkersAt(c, s, registry));
  }

  ghost function ImagesIn(c: Setup, images: seq<Option<ComponentImage>>, js: set<nat>,
                          name: string): set<ComponentImage>
    requires |images| == |c.jobs|
  {
    set j | j in js && j < |images| && images[j].Some? && c.jobs[j].ImageJob? && c.jobs[j].repo == name ::
      images[j].value
  }

  ghost function AllJobs(c: Setup): set<nat> {
    set j: nat {:trigger c.jobs[j]} | j < |c.jobs|
  }

  /** The images of one repository are compatible and the cache at hand is open to them. */
  ghost predicate Prepared(c: Setup, images: seq<Option<ComponentImage>>) {
    && JobsOf(c, images)
    && forall name ::
         var here := ImagesIn(c, images, AllJobs(c), name);
         Compatible(here) && forall i :: i in here ==> Open(RepoAt(c.cache, name), here, i)
  }

  /** No write in the repository went wrong and left something else in its file. */
  ghost predicate Intact(c: Setup, log: seq<Visit>, name: string) {
    forall v :: v in log && VisitOf(c, v, name) ==> v.left.None?
  }

  lemma {:induction false} ReplayKeeps(c: Setup, images: seq<Option<ComponentImage>>, log: seq<Visit>, name: string)
    requires Prepared(c, images) && Intact(c, log, name)
    ensures Keeps(Replay(c, log, name), ImagesIn(c, images, AllJobs(c), name),
                  ImagesIn(c, images, Finished(c, log, name), name))
    decreases |log|
  {
    var here := ImagesIn(c, images, AllJobs(c), name);
    if log != [] {
      var v, init := log[|log| - 1], log[..|log| - 1];
      ReplayKeeps(c, images, init, name);
      if VisitOf(c, v, name) && RunVisit(c, v, name, Replay(c, init, name)).Ok? {
        var image := images[v.job].value;
        assert c.jobs[v.job] == JobFor(image) && image in here;
        StoringKeeps(image, Replay(c, init, name), v.ops, here, ImagesIn(c, images, Finished(c, init, name), name));
        assert ImagesIn(c, images, Finished(c, init, name) + {v.job}, name) ==
               ImagesIn(c, images, Finished(c, init, name), name) + {image};
      }
    }
  }

  /** Whatever the other jobs are doing, succeeding or failing, the image of every completed job is
      cached, in every reachable state, unless a write in its repository left a spoiled file. */
  lemma CompletedIsCached(c: Setup, images: seq<Option<ComponentImage>>, s: State, j: nat)
    requires Prepared(c, images) && Reachable(c, s) && |s.phases| == |c.jobs|
    requires j < |images| && images[j].Some? && s.phases[j].Reached(Completed)
    requires Intact(c, s.log, JobFor(images[j].value).repo)
    ensures c.jobs[j].ImageJob? && Cached(RepoAt(s.cache, c.jobs[j].repo), images[j].value)
  {
    EveryRunIsSerial(c, s);
    ReachableIsSound(c, s);
    var name := c.jobs[j].repo;
    var here, done := ImagesIn(c, images, AllJobs(c), name), ImagesIn(c, images, Finished(c, s.log, name), name);
    ReplayKeeps(c, images, s.log, name);
    assert j in Finished(c, s.log, name) && images[j].value in done;
    if !Quiet(s, name) {
      WorkerKeeps(c, images, s, name, here, done);
    }
    SettledIsCached(RepoAt(s.cache, name), images[j].value);
  }

  /** That exception is needed: a job that is about to write the index of a repository can leave a cut
      file there, and then no image of that repository is cached, those of completed jobs included. */
  lemma CutIndexUncaches(c: Setup, s: State, j: nat, i: ComponentImage)
    requires Reachable(c, s) && |s.phases| == |c.jobs| && j < |c.jobs| && c.jobs[j].ImageJob?
    requires s.phases[j].Working? && s.phases[j].pc < c.jobs[j].Ops()
    requires var op := c.jobs[j].program[s.phases[j].pc]; op.StoreRepo? || op.StoreTagged?
    ensures var after := Apply(c, s, Fail(j, Some(Opaque(""))));
            && after.Some? && Reachable(c, after.value)
            && !Cached(RepoAt(after.value.cache, c.jobs[j].repo), i)
            && forall k :: 0 <= k < |c.jobs| && s.phases[k].Reached(Completed) ==>
                             after.value.phases[k].Reached(Completed)
  {
    var m := Fail(j, Some(Opaque("")));
    var ms: seq<Move> :| Moves(c, Start(c), ms) == Some(s);
    OneMoreMove(c, Start(c), ms, m);
    assert Moves(c, Start(c), ms + [m]) == Apply(c, s, m);
    assert RepoAt(Apply(c, s, m).value.cache, c.jobs[j].repo).indexFile == Some(Opaque(""));
  }

  /** A repository that a job is working in keeps what was settled before it entered. */
  lemma WorkerKeeps(c: Setup, images: seq<Option<ComponentImage>>, s: State, name: string,
                    here: set<ComponentImage>, done: set<ComponentImage>)
    requires Prepared(c, images) && Accounts(c, s) && Serial(c, s) && !Quiet(s, name)
    requires here == ImagesIn(c, images, AllJobs(c), name) && Keeps(Replay(c, s.log, name), here, done)
    ensures forall i :: i in done ==> Settled(RepoAt(s.cache, name), i)
  {
    var i := s.locks[name];
    assert WorkMatches(c, s, i) && Fits(c, s.phases[i], i) && i in AllJobs(c);
    assert c.jobs[i] == JobFor(images[i].value) && images[i].value in here;
    StoringKeeps(images[i].value, Replay(c, s.log, name), s.phases[i].pc, here, done);
  }

  /** No lost updates: when the call returns nil, every image job's image is cached. */
  lemma NilMeansAllCached(c: Setup, images: seq<Option<ComponentImage>>, s: State)
    requires Prepared(c, images) && Reachable(c, s) && Over(s) && s.firstErr.None?
    ensures forall j :: 0 <= j < |images| && images[j].Some? ==>
                          c.jobs[j].ImageJob? && Cached(RepoAt(s.cache, c.jobs[j].repo), images[j].value)
  {
    NilMeansAllCompleted(c, s);
    EveryRunIsSerial(c, s);
    forall v | v in s.log
      ensures v.left.None?
    {
      assert s.phases[v.job] in s.phases;
    }
    forall j | 0 <= j < |images| && images[j].Some?
      ensures c.jobs[j].ImageJob? && Cached(RepoAt(s.cache, c.jobs[j].repo), images[j].value)
    {
      assert s.phases[j] in s.phases;
      CompletedIsCached(c, images, s, j);
    }
  }

  /** An empty repository is open to every image that is tagged or carries no separate pin. */
  lemma EmptyIsOpen(images: set<ComponentImage>, i: ComponentImage)
    requires i.Tag() != "" || i.SeparatePin().None?
    ensures Open(EMPTY_REPO, images, i)
  {
  }

  /** From an empty cache no hypothesis on the cache is left: the images must not conflict, and be tagged or
      carry no separate pin. */
  lemma FreshIsPrepared(c: Setup, images: seq<Option<ComponentImage>>)
    requires c.cache == map[] && JobsOf(c, images)
    requires forall name :: Compatible(ImagesIn(c, images, AllJobs(c), name))
    requires forall k :: 0 <= k < |images| && images[k].Some? ==>
               images[k].value.Tag() != "" || images[k].value.SeparatePin().None?
    ensures Prepared(c, images)
  {
    forall name
      ensures forall i :: i in ImagesIn(c, images, AllJobs(c), name) ==>
                Open(RepoAt(c.cache, name), ImagesIn(c, images, AllJobs(c), name), i)
    {
      forall i | i in ImagesIn(c, images, AllJobs(c), name)
        ensures Open(RepoAt(c.cache, name), ImagesIn(c, images, AllJobs(c), name), i)
      {
        EmptyIsOpen(ImagesIn(c, images, AllJobs(c), name), i);
      }
    }
  }

  /** A download into an empty cache that returns nil leaves every image cached. */
  lemma FreshDownloadIsCached(c: Setup, images: seq<Option<ComponentImage>>, s: State)
    requires c.cache == map[] && JobsOf(c, images)
    requires forall name :: Compatible(ImagesIn(c, images, AllJobs(c), name))
    requires forall k :: 0 <= k < |images| && images[k].Some? ==>
               images[k].value.Tag() != "" || images[k].value.SeparatePin().None?
    requires Reachable(c, s) && Over(s) && s.firstErr.None?
    ensures forall j :: 0 <= j < |images| && images[j].Some? ==>
                          c.jobs[j].ImageJob? && Cached(RepoAt(s.cache, c.jobs[j].repo), images[j].value)
  {
    FreshIsPrepared(c, images);
    NilMeansAllCached(c, images, s);
  }

  /** The lock is what prevents lost updates: when two untagged images are recorded in one repository
      with both reads before both writes, the first is not recorded unless it was before. */
  lemma LostWithoutLock(r: Repo, a: Descriptor, b: Descriptor)
    requires ReadRepoIndex(r).Ok? && a.digest.Sha256? && b.digest.Sha256? && a.digest != b.digest
    requires a.Tag() == "" && b.Tag() == "" && !HasDigest(IndexOf(r), a.digest)
    ensures var (_, x) := Step(LoadRepo, r, NO_LOCAL).value;
            var (_, y) := Step(LoadRepo, r, NO_LOCAL).value;
            var (s, _) := Step(StoreRepo(a), r, x).value;
            var (t, _) := Step(StoreRepo(b), s, y).value;
            HasDigest(IndexOf(s), a.digest) && !HasDigest(IndexOf(t), a.digest)
  {
    PutIndexPuts(r, a);
    PutIndexPuts(r, b);
    UpsertDigests(IndexOf(r), a, a.digest);
    UpsertDigests(IndexOf(r), b, a.digest);
  }
}
