/** Executors running at the same time: every interleaving of taking locks, running
    functions and releasing the locks again. */
module ExecutorRuns {
  import opened Wrappers
  import opened Executor

  type JobId = nat

  /** One call of an executor: its repository and the functions it runs. */
  datatype Job = Job(repo: string, funs: seq<Fun>)

  /** Every repository has two locks; the one of its files is always taken first. */
  datatype Name = Files(repo: string) | Memory(repo: string)

  /** A lock that any number of readers or one writer holds. A writer that waits for the
      readers to leave keeps new readers out. */
  datatype RW = RW(readers: set<JobId>, waiting: Option<JobId>, writer: Option<JobId>)

  const FREE := RW({}, None, None)

  datatype Phase =
    | Idle
    | WantFiles
    | DrainFiles
    | WantMemory
    | DrainMemory
    | Running(next: nat)
    | LeaveMemory
    | LeaveFiles
    | Done

  datatype State = State(at: seq<Phase>, ran: seq<seq<Fun>>, failed: set<JobId>, locks: map<Name, RW>)

  /** A step of one executor; functions may fail, and the ones after a failed one are not run. */
  datatype Step = Go(j: JobId) | Fail(j: JobId)

  // ---------------------------------------------------------------- one lock

  predicate CanAsk(l: RW, mode: Mode)
  {
    mode.Unlocked? || (l.waiting.None? && l.writer.None?)
  }

  /** A reader that asks gets the lock, a writer begins to wait. */
  function Asked(l: RW, j: JobId, mode: Mode): RW
  {
    match mode
    case Unlocked => l
    case Shared => l.(readers := l.readers + {j})
    case Exclusive => l.(waiting := Some(j))
  }

  function Drained(l: RW, j: JobId): RW
  {
    l.(waiting := None, writer := Some(j))
  }

  function Left(l: RW, j: JobId, mode: Mode): RW
  {
    match mode
    case Unlocked => l
    case Shared => l.(readers := l.readers - {j})
    case Exclusive => l.(writer := None)
  }

  // ---------------------------------------------------------------- steps

  function ModeAt(job: Job, name: Name): Mode
  {
    if name.repo != job.repo then Unlocked
    else if name.Files? then Strongest(job.funs).files
    else Strongest(job.funs).memory
  }

  function LockOf(s: State, name: Name): RW
  {
    if name in s.locks then s.locks[name] else FREE
  }

  predicate InStep(jobs: seq<Job>, s: State)
  {
    |s.at| == |jobs| && |s.ran| == |jobs|
  }

  predicate Enabled(jobs: seq<Job>, s: State, step: Step)
    requires InStep(jobs, s)
  {
    step.j < |jobs| &&
    var job, at := jobs[step.j], s.at[step.j];
    match step
    case Fail(_) => at.Running? && at.next < |job.funs|
    case Go(_) =>
      match at
      case WantFiles => CanAsk(LockOf(s, Files(job.repo)), ModeAt(job, Files(job.repo)))
      case DrainFiles => LockOf(s, Files(job.repo)).readers == {}
      case WantMemory => CanAsk(LockOf(s, Memory(job.repo)), ModeAt(job, Memory(job.repo)))
      case DrainMemory => LockOf(s, Memory(job.repo)).readers == {}
      case Done => false
      case _ => true
  }

  function Moved(s: State, j: JobId, to: Phase): State
    requires j < |s.at|
  {
    s.(at := s.at[j := to])
  }

  function Relocked(s: State, name: Name, lock: RW, j: JobId, to: Phase): State
    requires j < |s.at|
  {
    s.(at := s.at[j := to], locks := s.locks[name := lock])
  }

  function Ran(s: State, j: JobId, f: Fun, to: Phase): State
    requires j < |s.at| && j < |s.ran|
  {
    s.(at := s.at[j := to], ran := s.ran[j := s.ran[j] + [f]])
  }

  function Next(jobs: seq<Job>, s: State, step: Step): (next: State)
    requires InStep(jobs, s) && Enabled(jobs, s, step)
    ensures InStep(jobs, next) && next.at == s.at[step.j := next.at[step.j]]
  {
    var j := step.j;
    var job := jobs[j];
    var files, memory := Files(job.repo), Memory(job.repo);
    match s.at[j]
    case Idle => Moved(s, j, if job.funs == [] then Done else WantFiles)
    case WantFiles =>
      var mode := ModeAt(job, files);
      Relocked(s, files, Asked(LockOf(s, files), j, mode), j, if mode.Exclusive? then DrainFiles else WantMemory)
    case DrainFiles => Relocked(s, files, Drained(LockOf(s, files), j), j, WantMemory)
    case WantMemory =>
      var mode := ModeAt(job, memory);
      Relocked(s, memory, Asked(LockOf(s, memory), j, mode), j, if mode.Exclusive? then DrainMemory else Running(0))
    case DrainMemory => Relocked(s, memory, Drained(LockOf(s, memory), j), j, Running(0))
    case Running(i) =>
      if i >= |job.funs| then Moved(s, j, LeaveMemory)
      else if step.Fail? then Ran(s, j, job.funs[i], LeaveMemory).(failed := s.failed + {j})
      else Ran(s, j, job.funs[i], Running(i + 1))
    case LeaveMemory => Relocked(s, memory, Left(LockOf(s, memory), j, ModeAt(job, memory)), j, LeaveFiles)
    case LeaveFiles => Relocked(s, files, Left(LockOf(s, files), j, ModeAt(job, files)), j, Done)
    case Done => s
  }

  // ---------------------------------------------------------------- the invariant

  /** How a job stands to a lock. */
  datatype Stand = Apart | Waits | Reads | Writes

  predicate Holds(at: Phase, name: Name)
  {
    at.Running? || at.LeaveMemory? || (name.Files? && (at.WantMemory? || at.DrainMemory? || at.LeaveFiles?))
  }

  function StandOf(job: Job, at: Phase, name: Name): Stand
  {
    match ModeAt(job, name)
    case Unlocked => Apart
    case Shared => if Holds(at, name) then Reads else Apart
    case Exclusive =>
      if Holds(at, name) then Writes
      else if (if name.Files? then at.DrainFiles? else at.DrainMemory?) then Waits
      else Apart
  }

  function Stands(jobs: seq<Job>, at: seq<Phase>, name: Name): (r: seq<Stand>)
    requires |at| == |jobs|
    ensures |r| == |jobs| && forall j :: 0 <= j < |jobs| ==> r[j] == StandOf(jobs[j], at[j], name)
  {
    seq(|jobs|, j requires 0 <= j < |jobs| => StandOf(jobs[j], at[j], name))
  }

  predicate Matches(l: RW, stands: seq<Stand>)
  {
    && (forall j :: 0 <= j < |stands| ==>
          && (j in l.readers <==> stands[j].Reads?)
          && (l.waiting == Some(j) <==> stands[j].Waits?)
          && (l.writer == Some(j) <==> stands[j].Writes?))
    && (forall j :: j in l.readers ==> j < |stands|)
    && (l.waiting.Some? ==> l.waiting.value < |stands| && l.writer.None?)
    && (l.writer.Some? ==> l.writer.value < |stands| && l.readers == {})
  }

  /** A job drains a lock only to write under it; it runs its functions in order, stops before
      the last one only after a failure, and after a failure runs no more. */
  predicate JobFits(job: Job, at: Phase, ran: seq<Fun>, failed: bool)
  {
    && (at.DrainFiles? ==> Strongest(job.funs).files.Exclusive?)
    && (at.DrainMemory? ==> Strongest(job.funs).memory.Exclusive?)
    && ran <= job.funs
    && (at.Running? ==> at.next == |ran|)
    && (at.Idle? || at.WantFiles? || at.DrainFiles? || at.WantMemory? || at.DrainMemory? ==> ran == [])
    && (at.LeaveMemory? || at.LeaveFiles? || at.Done? ==> failed || ran == job.funs)
    && (failed ==> at.LeaveMemory? || at.LeaveFiles? || at.Done?)
  }

  ghost predicate LocksMatch(jobs: seq<Job>, s: State)
    requires InStep(jobs, s)
  {
    forall name :: Matches(LockOf(s, name), Stands(jobs, s.at, name))
  }

  ghost predicate Inv(jobs: seq<Job>, s: State)
  {
    && InStep(jobs, s) && LocksMatch(jobs, s)
    && forall j :: 0 <= j < |jobs| ==> JobFits(jobs[j], s.at[j], s.ran[j], j in s.failed)
  }

  predicate Initial(jobs: seq<Job>, s: State)
  {
    && InStep(jobs, s) && s.locks == map[] && s.failed == {}
    && forall j :: 0 <= j < |jobs| ==> s.at[j].Idle? && s.ran[j] == []
  }

  lemma InitialIsConsistent(jobs: seq<Job>, s: State)
    requires Initial(jobs, s)
    ensures Inv(jobs, s)
  {
  }

  // ---------------------------------------------------------------- every step keeps the invariant

  lemma AskKeeps(l: RW, stands: seq<Stand>, j: JobId, mode: Mode)
    requires Matches(l, stands) && j < |stands| && stands[j].Apart? && CanAsk(l, mode)
    ensures Matches(Asked(l, j, mode),
                    stands[j := match mode case Unlocked => Apart case Shared => Reads case Exclusive => Waits])
  {
  }

  lemma DrainKeeps(l: RW, stands: seq<Stand>, j: JobId)
    requires Matches(l, stands) && j < |stands| && stands[j].Waits? && l.readers == {}
    ensures Matches(Drained(l, j), stands[j := Writes])
  {
  }

  lemma LeaveKeeps(l: RW, stands: seq<Stand>, j: JobId, mode: Mode)
    requires Matches(l, stands) && j < |stands|
    requires stands[j] == match mode case Unlocked => Apart case Shared => Reads case Exclusive => Writes
    ensures Matches(Left(l, j, mode), stands[j := Apart])
  {
  }

  lemma StandsAfter(jobs: seq<Job>, at: seq<Phase>, j: JobId, to: Phase, name: Name)
    requires |at| == |jobs| && j < |jobs|
    ensures Stands(jobs, at[j := to], name) == Stands(jobs, at, name)[j := StandOf(jobs[j], to, name)]
  {
  }

  /** A step that leaves a lock alone leaves every job's stand to it alone. */
  lemma OtherLocksMatch(jobs: seq<Job>, s: State, next: State, j: JobId, to: Phase, name: Name)
    requires InStep(jobs, s) && LocksMatch(jobs, s) && j < |jobs| && next.at == s.at[j := to]
    requires LockOf(next, name) == LockOf(s, name) && StandOf(jobs[j], to, name) == StandOf(jobs[j], s.at[j], name)
    ensures Matches(LockOf(next, name), Stands(jobs, next.at, name))
  {
    StandsAfter(jobs, s.at, j, to, name);
    var stands := Stands(jobs, s.at, name);
    assert stands[j := stands[j]] == stands;
    assert Matches(LockOf(s, name), stands);
  }

  lemma MatchAfter(jobs: seq<Job>, s: State, next: State, j: JobId, name: Name)
    requires Inv(jobs, s) && j < |jobs| && Enabled(jobs, s, Go(j)) && next == Next(jobs, s, Go(j))
    requires name == Files(jobs[j].repo) || name == Memory(jobs[j].repo)
    requires !s.at[j].Idle? && !s.at[j].Running?
    ensures Matches(LockOf(next, name), Stands(jobs, next.at, name))
  {
    var job, at, to := jobs[j], s.at[j], next.at[j];
    var l, stands := LockOf(s, name), Stands(jobs, s.at, name);
    assert Matches(l, stands) && JobFits(job, at, s.ran[j], j in s.failed);
    StandsAfter(jobs, s.at, j, to, name);
    hide Stands, Matches, LocksMatch, Strongest;
    if (if name.Files? then at.WantFiles? else at.WantMemory?) {
      AskKeeps(l, stands, j, ModeAt(job, name));
    } else if (if name.Files? then at.DrainFiles? else at.DrainMemory?) {
      DrainKeeps(l, stands, j);
    } else if (if name.Files? then at.LeaveFiles? else at.LeaveMemory?) {
      LeaveKeeps(l, stands, j, ModeAt(job, name));
    } else {
      assert stands[j := stands[j]] == stands;
    }
  }

  lemma LocksStayMatched(jobs: seq<Job>, s: State, step: Step)
    requires Inv(jobs, s) && Enabled(jobs, s, step)
    ensures LocksMatch(jobs, Next(jobs, s, step))
  {
    var j, next := step.j, Next(jobs, s, step);
    var job := jobs[j];
    assert JobFits(job, s.at[j], s.ran[j], j in s.failed);
    forall name
      ensures Matches(LockOf(next, name), Stands(jobs, next.at, name))
    {
      hide Matches, Stands;
      if (name == Files(job.repo) || name == Memory(job.repo)) && !s.at[j].Idle? && !s.at[j].Running? {
        MatchAfter(jobs, s, next, j, name);
      } else {
        OtherLocksMatch(jobs, s, next, j, next.at[j], name);
      }
    }
  }

  lemma JobStaysFit(jobs: seq<Job>, s: State, step: Step)
    requires InStep(jobs, s) && Enabled(jobs, s, step) && JobFits(jobs[step.j], s.at[step.j], s.ran[step.j], step.j in s.failed)
    ensures var next := Next(jobs, s, step);
            JobFits(jobs[step.j], next.at[step.j], next.ran[step.j], step.j in next.failed)
  {
    hide Strongest, LockOf;
  }

  lemma StepKeepsInv(jobs: seq<Job>, s: State, step: Step)
    requires Inv(jobs, s) && Enabled(jobs, s, step)
    ensures Inv(jobs, Next(jobs, s, step))
  {
    var next := Next(jobs, s, step);
    LocksStayMatched(jobs, s, step);
    JobStaysFit(jobs, s, step);
    OthersStay(jobs, s, step);
    hide JobFits, LocksMatch, Enabled, Next;
    forall j | 0 <= j < |jobs|
      ensures JobFits(jobs[j], next.at[j], next.ran[j], j in next.failed)
    {
      assert JobFits(jobs[j], s.at[j], s.ran[j], j in s.failed);
    }
  }

  lemma OthersStay(jobs: seq<Job>, s: State, step: Step)
    requires InStep(jobs, s) && Enabled(jobs, s, step)
    ensures forall j :: 0 <= j < |jobs| && j != step.j ==>
              Next(jobs, s, step).ran[j] == s.ran[j] && (j in Next(jobs, s, step).failed <==> j in s.failed)
  {
    hide LockOf, ModeAt, CanAsk;
  }

  // ---------------------------------------------------------------- exclusion

  /** Two executors of one repository that are running functions have locks that overlap, so
      no function of one excludes a function of the other. */
  lemma RunningExclude(jobs: seq<Job>, s: State, j: JobId, k: JobId)
    requires Inv(jobs, s) && j < |jobs| && k < |jobs| && j != k && jobs[j].repo == jobs[k].repo
    requires s.at[j].Running? && s.at[k].Running?
    ensures Overlap(Strongest(jobs[j].funs), Strongest(jobs[k].funs)) && !MustExclude(jobs[j].funs, jobs[k].funs)
  {
    OverlapAt(jobs, s, j, k, Files(jobs[j].repo));
    OverlapAt(jobs, s, j, k, Memory(jobs[j].repo));
    LocksCoverFunctions(jobs[j].funs, jobs[k].funs);
  }

  lemma OverlapAt(jobs: seq<Job>, s: State, j: JobId, k: JobId, name: Name)
    requires Inv(jobs, s) && j < |jobs| && k < |jobs| && j != k && jobs[j].repo == jobs[k].repo == name.repo
    requires Holds(s.at[j], name) && Holds(s.at[k], name)
    ensures Compatible(ModeAt(jobs[j], name), ModeAt(jobs[k], name))
  {
    var stands := Stands(jobs, s.at, name);
    assert Matches(LockOf(s, name), stands);
    assert stands[j] == StandOf(jobs[j], s.at[j], name) && stands[k] == StandOf(jobs[k], s.at[k], name);
    hide Stands, Strongest;
  }

  // ---------------------------------------------------------------- who waits for whom

  /** A lock keeps a reader waiting only while another executor writes under it or waits to write;
      readers never wait for each other. */
  lemma WaitsForWriters(jobs: seq<Job>, s: State, j: JobId, name: Name)
    requires Inv(jobs, s) && j < |jobs| && name.repo == jobs[j].repo
    requires if name.Files? then s.at[j].WantFiles? else s.at[j].WantMemory?
    ensures Enabled(jobs, s, Go(j)) <==>
            || ModeAt(jobs[j], name).Unlocked?
            || forall k :: 0 <= k < |jobs| ==> !IsWriting(jobs[k], s.at[k], name)
  {
    var l, stands := LockOf(s, name), Stands(jobs, s.at, name);
    assert Matches(l, stands);
    assert forall k :: 0 <= k < |jobs| ==> (IsWriting(jobs[k], s.at[k], name) <==> stands[k].Waits? || stands[k].Writes?);
    hide Strongest, Stands;
    if l.waiting.Some? {
      assert stands[l.waiting.value].Waits?;
    }
    if l.writer.Some? {
      assert stands[l.writer.value].Writes?;
    }
  }

  /** An executor that has a lock to write under it, or waits for the readers to leave it. */
  predicate IsWriting(job: Job, at: Phase, name: Name)
  {
    ModeAt(job, name).Exclusive? && (Holds(at, name) || if name.Files? then at.DrainFiles? else at.DrainMemory?)
  }

  /** A writer that waits for a lock waits exactly for the executors that read under it. */
  lemma DrainsReaders(jobs: seq<Job>, s: State, j: JobId, name: Name)
    requires Inv(jobs, s) && j < |jobs| && name.repo == jobs[j].repo
    requires if name.Files? then s.at[j].DrainFiles? else s.at[j].DrainMemory?
    ensures Enabled(jobs, s, Go(j)) <==>
            forall k :: 0 <= k < |jobs| ==> !(ModeAt(jobs[k], name).Shared? && Holds(s.at[k], name))
  {
    var l, stands := LockOf(s, name), Stands(jobs, s.at, name);
    assert Matches(l, stands);
    assert forall k :: 0 <= k < |jobs| ==> ((ModeAt(jobs[k], name).Shared? && Holds(s.at[k], name)) <==> stands[k].Reads?);
    hide Strongest, Stands;
    if k :| k in l.readers {
      assert stands[k].Reads?;
    }
  }

  // ---------------------------------------------------------------- no deadlock

  /** The job that a lock is waiting for, if nobody beyond this lock can be named. */
  lemma SomeoneCanTake(jobs: seq<Job>, s: State, j: JobId, name: Name) returns (k: JobId)
    requires Inv(jobs, s) && j < |jobs| && name.repo == jobs[j].repo
    requires if name.Files? then s.at[j].WantFiles? || s.at[j].DrainFiles? else s.at[j].WantMemory? || s.at[j].DrainMemory?
    requires forall i :: 0 <= i < |jobs| ==> !Holds(s.at[i], name)
    ensures k < |jobs| && Enabled(jobs, s, Go(k))
  {
    var l, stands := LockOf(s, name), Stands(jobs, s.at, name);
    assert Matches(l, stands);
    assert forall i :: 0 <= i < |jobs| ==> !stands[i].Reads? && !stands[i].Writes?;
    assert l.readers == {} && l.writer.None?;
    hide Strongest, Stands;
    if l.waiting.Some? {
      k := l.waiting.value;
      assert stands[k] == StandOf(jobs[k], s.at[k], name) && stands[k].Waits?;
    } else {
      k := j;
    }
  }

  /** As long as some executor has not finished, some executor can take a step. */
  lemma NeverStuck(jobs: seq<Job>, s: State, j: JobId) returns (k: JobId)
    requires Inv(jobs, s) && j < |jobs| && !s.at[j].Done?
    ensures k < |jobs| && Enabled(jobs, s, Go(k))
  {
    hide LocksMatch, JobFits, LockOf, ModeAt, CanAsk;
    if i :| 0 <= i < |jobs| && (s.at[i].Running? || s.at[i].LeaveMemory? || s.at[i].LeaveFiles? || s.at[i].Idle?) {
      k := i;
    } else if i :| 0 <= i < |jobs| && (s.at[i].WantMemory? || s.at[i].DrainMemory?) {
      k := SomeoneCanTake(jobs, s, i, Memory(jobs[i].repo));
    } else {
      k := SomeoneCanTake(jobs, s, j, Files(jobs[j].repo));
    }
  }

  // ---------------------------------------------------------------- every run ends, with all locks free

  /** At most how many steps a job can still take. */
  function Remaining(job: Job, at: Phase): nat
  {
    match at
    case Idle => |job.funs| + 8
    case WantFiles => |job.funs| + 7
    case DrainFiles => |job.funs| + 6
    case WantMemory => |job.funs| + 5
    case DrainMemory => |job.funs| + 4
    case Running(i) => if i <= |job.funs| then |job.funs| - i + 3 else 3
    case LeaveMemory => 2
    case LeaveFiles => 1
    case Done => 0
  }

  function Total(jobs: seq<Job>, at: seq<Phase>): nat
    requires |at| == |jobs|
  {
    if jobs == [] then 0 else Remaining(jobs[0], at[0]) + Total(jobs[1..], at[1..])
  }

  lemma {:induction false} TotalAfter(jobs: seq<Job>, at: seq<Phase>, j: JobId, to: Phase)
    requires |at| == |jobs| && j < |jobs|
    ensures Total(jobs, at[j := to]) == Total(jobs, at) - Remaining(jobs[j], at[j]) + Remaining(jobs[j], to)
  {
    if j == 0 {
      assert at[j := to][1..] == at[1..];
    } else {
      assert at[j := to][1..] == at[1..][j - 1 := to];
      TotalAfter(jobs[1..], at[1..], j - 1, to);
    }
  }

  lemma StepLeavesLess(jobs: seq<Job>, s: State, step: Step)
    requires InStep(jobs, s) && Enabled(jobs, s, step)
    ensures Remaining(jobs[step.j], Next(jobs, s, step).at[step.j]) < Remaining(jobs[step.j], s.at[step.j])
  {
    hide Strongest, LockOf, CanAsk, ModeAt, Asked, Drained, Left;
  }

  lemma StepUsesUp(jobs: seq<Job>, s: State, step: Step)
    requires InStep(jobs, s) && Enabled(jobs, s, step)
    ensures Total(jobs, Next(jobs, s, step).at) < Total(jobs, s.at)
  {
    hide Total;
    StepLeavesLess(jobs, s, step);
    hide Remaining, Next, Enabled;
    TotalAfter(jobs, s.at, step.j, Next(jobs, s, step).at[step.j]);
  }

  predicate Allowed(jobs: seq<Job>, s: State, steps: seq<Step>)
    requires InStep(jobs, s)
    decreases |steps|
  {
    steps == [] || (Enabled(jobs, s, steps[0]) && Allowed(jobs, Next(jobs, s, steps[0]), steps[1..]))
  }

  function Run(jobs: seq<Job>, s: State, steps: seq<Step>): (end: State)
    requires InStep(jobs, s) && Allowed(jobs, s, steps)
    ensures InStep(jobs, end)
    decreases |steps|
  {
    if steps == [] then s else Run(jobs, Next(jobs, s, steps[0]), steps[1..])
  }

  lemma {:induction false} RunKeepsInv(jobs: seq<Job>, s: State, steps: seq<Step>)
    requires Inv(jobs, s) && Allowed(jobs, s, steps)
    ensures Inv(jobs, Run(jobs, s, steps))
    ensures |steps| + Total(jobs, Run(jobs, s, steps).at) <= Total(jobs, s.at)
    decreases |steps|
  {
    if steps != [] {
      StepKeepsInv(jobs, s, steps[0]);
      StepUsesUp(jobs, s, steps[0]);
      hide LocksMatch, JobFits, Enabled, Next;
      RunKeepsInv(jobs, Next(jobs, s, steps[0]), steps[1..]);
    }
  }

  /** Only a failing function makes an executor fail. */
  lemma {:induction false} FailedOnlyByStep(jobs: seq<Job>, s: State, steps: seq<Step>, j: JobId)
    requires InStep(jobs, s) && Allowed(jobs, s, steps) && j !in s.failed && Fail(j) !in steps
    ensures j !in Run(jobs, s, steps).failed
    decreases |steps|
  {
    if steps != [] {
      assert steps[0] != Fail(j);
      assert j !in Next(jobs, s, steps[0]).failed by { hide LockOf, ModeAt, Asked, Left, Drained; }
      hide Next, Enabled;
      FailedOnlyByStep(jobs, Next(jobs, s, steps[0]), steps[1..], j);
    }
  }

  /** A function has been run by this step, as the next one of its executor. */
  lemma FailingRuns(jobs: seq<Job>, s: State, j: JobId)
    requires Inv(jobs, s) && Enabled(jobs, s, Fail(j))
    ensures var next := Next(jobs, s, Fail(j));
            && j in next.failed && |s.ran[j]| < |jobs[j].funs|
            && next.ran[j] == s.ran[j] + [jobs[j].funs[|s.ran[j]|]]
  {
    hide LocksMatch, LockOf;
    assert JobFits(jobs[j], s.at[j], s.ran[j], j in s.failed);
  }

  /** Once an executor has failed, no step runs another function of it, nor can it fail again. */
  lemma FailedStays(jobs: seq<Job>, s: State, step: Step, j: JobId)
    requires Inv(jobs, s) && Enabled(jobs, s, step) && j < |jobs| && j in s.failed
    ensures step != Fail(j) && j in Next(jobs, s, step).failed && Next(jobs, s, step).ran[j] == s.ran[j]
  {
    OthersStay(jobs, s, step);
    hide LocksMatch, LockOf, Strongest;
    assert JobFits(jobs[j], s.at[j], s.ran[j], true);
  }

  lemma {:induction false} FailedStops(jobs: seq<Job>, s: State, steps: seq<Step>, j: JobId)
    requires Inv(jobs, s) && Allowed(jobs, s, steps) && j < |jobs| && j in s.failed
    ensures Run(jobs, s, steps).ran[j] == s.ran[j] && j in Run(jobs, s, steps).failed && Fail(j) !in steps
    decreases |steps|
  {
    if steps != [] {
      FailedStays(jobs, s, steps[0], j);
      StepKeepsInv(jobs, s, steps[0]);
      hide Inv, Next, Enabled;
      FailedStops(jobs, Next(jobs, s, steps[0]), steps[1..], j);
    }
  }

  /** The function that fails in the i-th step, the next one its executor had to run, is the last
      one it runs, and no other function of it fails. */
  ghost predicate FailsLast(jobs: seq<Job>, s: State, steps: seq<Step>, i: nat)
    requires InStep(jobs, s) && Allowed(jobs, s, steps) && i < |steps|
  {
    var j := steps[i].j;
    && j < |jobs| && Allowed(jobs, s, steps[..i])
    && var before, end := Run(jobs, s, steps[..i]), Run(jobs, s, steps);
       && |before.ran[j]| < |jobs[j].funs| && end.ran[j] == before.ran[j] + [jobs[j].funs[|before.ran[j]|]]
       && Fail(j) !in steps[..i] && Fail(j) !in steps[i + 1..]
  }

  /** In every run, a function that fails is the last one its executor runs. */
  lemma {:induction false} FailureStops(jobs: seq<Job>, s: State, steps: seq<Step>, i: nat)
    requires Inv(jobs, s) && Allowed(jobs, s, steps) && i < |steps| && steps[i].Fail?
    ensures FailsLast(jobs, s, steps, i)
    decreases i
  {
    var next := Next(jobs, s, steps[0]);
    StepKeepsInv(jobs, s, steps[0]);
    if i == 0 {
      var j := steps[0].j;
      FailingRuns(jobs, s, j);
      FailedStops(jobs, next, steps[1..], j);
      hide Inv, Next, Enabled;
      assert steps[..0] == [];
    } else {
      var j := steps[i].j;
      assert steps[i] == steps[1..][i - 1];
      if steps[0] == Fail(j) {
        FailsOnce(jobs, s, steps, i);
      }
      hide Inv, Next, Enabled;
      FailureStops(jobs, next, steps[1..], i - 1);
      assert steps[..i][0] == steps[0] && steps[..i][1..] == steps[1..][..i - 1];
      assert steps[1..][i..] == steps[i + 1..];
    }
  }

  lemma FailsOnce(jobs: seq<Job>, s: State, steps: seq<Step>, i: nat)
    requires Inv(jobs, s) && Allowed(jobs, s, steps) && 0 < i < |steps| && steps[0].Fail?
    ensures steps[i] != steps[0]
  {
    StepKeepsInv(jobs, s, steps[0]);
    FailingRuns(jobs, s, steps[0].j);
    hide Inv, Next, Enabled;
    FailedStops(jobs, Next(jobs, s, steps[0]), steps[1..], steps[0].j);
    assert steps[i] == steps[1..][i - 1];
  }

  /** In every run, executors of one repository that run at the same time do not exclude each other. */
  lemma RunsExclude(jobs: seq<Job>, s: State, steps: seq<Step>, j: JobId, k: JobId)
    requires Initial(jobs, s) && Allowed(jobs, s, steps)
    requires j < |jobs| && k < |jobs| && j != k && jobs[j].repo == jobs[k].repo
    requires Run(jobs, s, steps).at[j].Running? && Run(jobs, s, steps).at[k].Running?
    ensures !MustExclude(jobs[j].funs, jobs[k].funs)
  {
    InitialIsConsistent(jobs, s);
    RunKeepsInv(jobs, s, steps);
    RunningExclude(jobs, Run(jobs, s, steps), j, k);
  }

  /** No run is longer than this, and one that cannot go on has finished every executor, each
      having run its functions in order up to and including the first that failed, and has
      released every lock. */
  lemma {:induction false} RunsEnd(jobs: seq<Job>, s: State, steps: seq<Step>)
    requires Initial(jobs, s) && Allowed(jobs, s, steps)
    ensures |steps| <= Total(jobs, s.at)
    ensures forall i :: 0 <= i < |steps| && steps[i].Fail? ==> FailsLast(jobs, s, steps, i)
    ensures (forall step :: !Enabled(jobs, Run(jobs, s, steps), step)) ==>
              var end := Run(jobs, s, steps);
              && (forall j :: 0 <= j < |jobs| ==> end.at[j].Done? && end.ran[j] <= jobs[j].funs)
              && (forall j :: 0 <= j < |jobs| && Fail(j) !in steps ==> end.ran[j] == jobs[j].funs)
              && (forall name :: LockOf(end, name) == FREE)
  {
    InitialIsConsistent(jobs, s);
    RunKeepsInv(jobs, s, steps);
    forall i | 0 <= i < |steps| && steps[i].Fail?
      ensures FailsLast(jobs, s, steps, i)
    {
      FailureStops(jobs, s, steps, i);
    }
    hide FailsLast;
    var end := Run(jobs, s, steps);
    if forall step :: !Enabled(jobs, end, step) {
      forall j | 0 <= j < |jobs|
        ensures end.at[j].Done? && end.ran[j] <= jobs[j].funs && (Fail(j) !in steps ==> end.ran[j] == jobs[j].funs)
      {
        if Fail(j) !in steps {
          FailedOnlyByStep(jobs, s, steps, j);
        }
        assert JobFits(jobs[j], end.at[j], end.ran[j], j in end.failed);
        if !end.at[j].Done? {
          var k := NeverStuck(jobs, end, j);
        }
      }
      forall name
        ensures LockOf(end, name) == FREE
      {
        AllLeft(jobs, end, name);
      }
    }
  }

  lemma AllLeft(jobs: seq<Job>, s: State, name: Name)
    requires Inv(jobs, s) && forall j :: 0 <= j < |jobs| ==> s.at[j].Done?
    ensures LockOf(s, name) == FREE
  {
    var l, stands := LockOf(s, name), Stands(jobs, s.at, name);
    assert Matches(l, stands);
    assert forall j :: 0 <= j < |jobs| ==> stands[j].Apart?;
    assert l.readers == {};
  }
}
