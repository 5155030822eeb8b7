/** A reader-counting lock within one process on top of a file lock between processes, as a
    transition system: every atomic step of every thread, and of any other process. */
module FileLock {
  import opened Sets
  import opened Wrappers

  type Thread = nat

  /** How this process holds the lock file, as the kernel sees it. */
  datatype Mode = Free | Shared | Exclusive

  /** What a thread does next; `covered` tells whether it got in with the lock file present. */
  datatype At =
    | Out
      // Lock and Unlock
    | LockMutex
    | DrainReaders
    | LockFile
    | ConvertFile
    | Writing(covered: bool)
    | UnlockMutex
      // RLock
    | RLockCount
    | CountReader
    | RLockUncount
    | RLockMutex
    | RLockFile
    | Reading(covered: bool)
      // RUnlock
    | UncountReader(covered: bool)
    | RUnlockFile
    | RUnlockMutex
    | RUnlockCount

  datatype State = State(
    at: map<Thread, At>,
    countMx: Option<Thread>, count: nat,
    // the mutex within the process: a writer waits until the readers are gone, and keeps new ones out
    readers: set<Thread>, waiting: Option<Thread>, writer: Option<Thread>,
    // the flags of the file lock, and what the kernel knows of this and of other processes
    l: bool, r: bool, held: Mode, foreignReaders: nat, foreignWriter: bool)

  datatype Step =
    | Lock(t: Thread)
    | RLock(t: Thread)
    | Go(t: Thread)
      // the directory of the lock file does not exist
    | Missing(t: Thread)
      // converting a shared lock to an exclusive one gives up the shared one first
    | Drop(t: Thread)
    | ForeignRLock
    | ForeignRUnlock
    | ForeignLock
    | ForeignUnlock

  const WIDTH := 0x1_0000_0000_0000_0000

  /** The kernel grants an exclusive lock when no other process holds one of any kind. */
  predicate GrantsExclusive(s: State)
  {
    s.foreignReaders == 0 && !s.foreignWriter
  }

  predicate CanGo(s: State, t: Thread)
    requires t in s.at
  {
    match s.at[t]
    case Out => false
    case LockMutex => s.waiting.None? && s.writer.None?
    case DrainReaders => s.readers == {}
    case LockFile => s.l || GrantsExclusive(s)
    case ConvertFile => GrantsExclusive(s)
    case RLockCount => s.countMx.None?
    case RLockMutex => s.waiting.None? && s.writer.None?
    case RLockFile => s.r || !s.foreignWriter
    case Reading(_) => s.countMx.None?
    case _ => true
  }

  predicate Enabled(s: State, step: Step)
  {
    match step
    case Lock(t) => t in s.at && s.at[t].Out?
    case RLock(t) => t in s.at && s.at[t].Out?
    case Go(t) => t in s.at && CanGo(s, t)
    case Missing(t) => t in s.at && (s.at[t].LockFile? || s.at[t].RLockFile?) && !s.l && !s.r
    case Drop(t) => t in s.at && s.at[t].LockFile? && !s.l && s.held.Shared?
    case ForeignRLock => !s.held.Exclusive? && !s.foreignWriter
    case ForeignRUnlock => s.foreignReaders > 0
    case ForeignLock => s.held.Free? && GrantsExclusive(s)
    case ForeignUnlock => s.foreignWriter
  }

  /** The count is unsigned and wraps around. */
  function Up(count: nat): nat
  {
    (count + 1) % WIDTH
  }

  function Down(count: nat): nat
  {
    (count - 1) % WIDTH
  }

  function FileUnlocked(s: State): State
  {
    s.(l := false, r := false, held := if s.l || s.r then Free else s.held)
  }

  function LockGoes(s: State, t: Thread): State
    requires t in s.at
  {
    match s.at[t]
    case LockMutex => s.(waiting := Some(t), at := s.at[t := DrainReaders])
    case DrainReaders => s.(waiting := None, writer := Some(t), at := s.at[t := LockFile])
    case LockFile => s.(l := true, held := Exclusive, at := s.at[t := Writing(true)])
    case ConvertFile => s.(l := true, held := Exclusive, at := s.at[t := Writing(true)])
    case _ => s
  }

  function UnlockGoes(s: State, t: Thread): State
    requires t in s.at
  {
    match s.at[t]
    case Writing(_) => FileUnlocked(s).(at := s.at[t := UnlockMutex])
    case UnlockMutex => s.(writer := None, at := s.at[t := Out])
    case _ => s
  }

  function RLockGoes(s: State, t: Thread): State
    requires t in s.at
  {
    match s.at[t]
    case RLockCount => s.(countMx := Some(t), at := s.at[t := CountReader])
    case CountReader => s.(count := Up(s.count), at := s.at[t := RLockUncount])
    case RLockUncount => s.(countMx := None, at := s.at[t := RLockMutex])
    case RLockMutex => s.(readers := s.readers + {t}, at := s.at[t := RLockFile])
    case RLockFile => s.(r := true, held := if s.r then s.held else Shared, at := s.at[t := Reading(true)])
    case _ => s
  }

  function RUnlockGoes(s: State, t: Thread): State
    requires t in s.at
  {
    match s.at[t]
    case Reading(covered) => s.(countMx := Some(t), at := s.at[t := UncountReader(covered)])
    case UncountReader(_) =>
      var count := Down(s.count);
      if count == 0 then s.(count := count, at := s.at[t := RUnlockFile])
      else s.(count := count, at := s.at[t := RUnlockMutex])
    case RUnlockFile => FileUnlocked(s).(at := s.at[t := RUnlockMutex])
    case RUnlockMutex => s.(readers := s.readers - {t}, at := s.at[t := RUnlockCount])
    case RUnlockCount => s.(countMx := None, at := s.at[t := Out])
    case _ => s
  }

  function Went(s: State, t: Thread): State
    requires t in s.at
  {
    if InLock(s.at[t]) then LockGoes(s, t)
    else if InUnlock(s.at[t]) then UnlockGoes(s, t)
    else if InRLock(s.at[t]) then RLockGoes(s, t)
    else RUnlockGoes(s, t)
  }

  predicate InLock(at: At)
  {
    at.LockMutex? || at.DrainReaders? || at.LockFile? || at.ConvertFile?
  }

  predicate InUnlock(at: At)
  {
    at.Writing? || at.UnlockMutex?
  }

  predicate InRLock(at: At)
  {
    at.RLockCount? || at.CountReader? || at.RLockUncount? || at.RLockMutex? || at.RLockFile?
  }

  function Next(s: State, step: Step): State
    requires Enabled(s, step)
  {
    match step
    case Lock(t) => s.(at := s.at[t := LockMutex])
    case RLock(t) => s.(at := s.at[t := RLockCount])
    case Go(t) => Went(s, t)
    case Missing(t) => s.(at := s.at[t := if s.at[t].LockFile? then Writing(false) else Reading(false)])
    case Drop(t) => s.(held := Free, at := s.at[t := ConvertFile])
    case ForeignRLock => s.(foreignReaders := s.foreignReaders + 1)
    case ForeignRUnlock => s.(foreignReaders := s.foreignReaders - 1)
    case ForeignLock => s.(foreignWriter := true)
    case ForeignUnlock => s.(foreignWriter := false)
  }

  // ---------------------------------------------------------------- the invariant

  predicate HoldsCount(at: At)
  {
    at.CountReader? || at.RLockUncount? || at.UncountReader? || at.RUnlockFile? || at.RUnlockMutex? || at.RUnlockCount?
  }

  predicate HoldsRead(at: At)
  {
    at.RLockFile? || at.Reading? || at.UncountReader? || at.RUnlockFile? || at.RUnlockMutex?
  }

  predicate Drains(at: At)
  {
    at.DrainReaders?
  }

  predicate HoldsWrite(at: At)
  {
    at.LockFile? || at.ConvertFile? || at.Writing? || at.UnlockMutex?
  }

  /** A reader past the increment and not yet past the decrement. */
  predicate IsCounted(at: At)
  {
    at.RLockUncount? || at.RLockMutex? || at.RLockFile? || at.Reading? || at.UncountReader?
  }

  function Counted(at: map<Thread, At>): set<Thread>
  {
    set t | t in at && IsCounted(at[t])
  }

  /** Exactly this thread holds the mutex, or nobody does. */
  predicate Owner(at: map<Thread, At>, owner: Option<Thread>, holds: At -> bool)
  {
    && (owner.Some? ==> owner.value in at)
    && forall t :: t in at ==> (owner == Some(t) <==> holds(at[t]))
  }

  predicate MutexesAreHeld(s: State)
  {
    && Owner(s.at, s.waiting, Drains)
    && Owner(s.at, s.writer, HoldsWrite)
    && Owner(s.at, s.countMx, HoldsCount)
    && s.readers == Holders(s.at)
    && (s.writer.Some? ==> s.readers == {})
    && (s.waiting.Some? ==> s.writer.None?)
  }

  function Holders(at: map<Thread, At>): set<Thread>
  {
    set t | t in at && HoldsRead(at[t])
  }

  function WriterAt(s: State): At
  {
    if s.writer.Some? && s.writer.value in s.at then s.at[s.writer.value] else Out
  }

  function CounterAt(s: State): At
  {
    if s.countMx.Some? && s.countMx.value in s.at then s.at[s.countMx.value] else Out
  }

  predicate ReadsCovered(at: At)
  {
    at == Reading(true) || at == UncountReader(true)
  }

  predicate NobodyCovered(at: map<Thread, At>)
  {
    forall t :: t in at ==> !ReadsCovered(at[t])
  }

  predicate FileIsHeld(s: State)
  {
    && (s.held.Exclusive? <==> s.l)
    && (s.l <==> WriterAt(s) == Writing(true))
    && (s.held.Shared? ==> s.r)
    && (s.r && s.held.Free? ==> WriterAt(s).ConvertFile?)
    && (WriterAt(s).ConvertFile? ==> s.held.Free?)
    && (s.r ==> s.count > 0 || CounterAt(s).RUnlockFile?)
    && (CounterAt(s).RUnlockFile? ==> s.count == 0)
    && (s.held.Exclusive? ==> GrantsExclusive(s))
    && (s.held.Shared? ==> !s.foreignWriter)
    && (s.foreignWriter ==> s.foreignReaders == 0)
  }

  predicate Inv(s: State)
  {
    && MutexesAreHeld(s) && FileIsHeld(s)
    && (!s.r ==> NobodyCovered(s.at))
    && s.count == |Counted(s.at)| && |s.at| < WIDTH
  }

  /** No thread has called the lock yet, and the lock is as it was created. */
  predicate Initial(s: State)
  {
    && (forall t :: t in s.at ==> s.at[t].Out?) && |s.at| < WIDTH
    && s.countMx.None? && s.count == 0 && s.readers == {} && s.waiting.None? && s.writer.None?
    && !s.l && !s.r && s.held.Free? && (s.foreignWriter ==> s.foreignReaders == 0)
  }

  lemma InitialIsConsistent(s: State)
    requires Initial(s)
    ensures Inv(s)
  {
    assert Counted(s.at) == {};
  }

  // ---------------------------------------------------------------- every step keeps the invariant

  lemma CountedAfter(at: map<Thread, At>, t: Thread, to: At)
    requires t in at
    ensures |at[t := to]| == |at|
    ensures |Counted(at)| <= |at|
    ensures !IsCounted(at[t]) ==> |Counted(at)| < |at|
    ensures IsCounted(at[t]) ==> |Counted(at)| > 0
    ensures |Counted(at[t := to])| ==
            |Counted(at)| + (if IsCounted(to) then 1 else 0) - (if IsCounted(at[t]) then 1 else 0)
  {
    hide IsCounted;
    var after := at[t := to];
    assert after.Keys == at.Keys;
    assert |at| == |at.Keys| && |after| == |after.Keys|;
    Smaller(Counted(at), at.Keys);
    if IsCounted(at[t]) {
      assert t in Counted(at);
      if IsCounted(to) {
        assert Counted(after) == Counted(at);
      } else {
        assert Counted(after) == Counted(at) - {t};
      }
    } else {
      Smaller(Counted(at), at.Keys - {t});
      if IsCounted(to) {
        assert Counted(after) == Counted(at) + {t};
      } else {
        assert Counted(after) == Counted(at);
      }
    }
  }

  /** Whether a step is taken by a thread of this process. */
  predicate IsOwn(step: Step)
  {
    step.Lock? || step.RLock? || step.Go? || step.Missing? || step.Drop?
  }

  function Passed(mutex: Option<Thread>, t: Thread, before: bool, after: bool): Option<Thread>
  {
    if before == after then mutex else if after then Some(t) else None
  }

  /** It is in, or on its way out, without having had the lock file. */
  predicate Uncovered(at: At)
  {
    at == Reading(false) || at == Writing(false) || at == UncountReader(false)
  }

  /** A step moved one thread; it took and released the mutexes as the thread's places say,
      and took one only when it was free to be taken. */
  predicate Moved(s: State, next: State, t: Thread)
  {
    && t in s.at && t in next.at && next.at == s.at[t := next.at[t]]
    && MovedMutexes(s, next, t, s.at[t], next.at[t])
  }

  predicate MovedMutexes(s: State, next: State, t: Thread, a: At, b: At)
  {
    && next.waiting == Passed(s.waiting, t, Drains(a), Drains(b))
    && (Drains(b) && !Drains(a) ==> s.waiting.None? && s.writer.None?)
    && next.writer == Passed(s.writer, t, HoldsWrite(a), HoldsWrite(b))
    && (HoldsWrite(b) && !HoldsWrite(a) ==> Drains(a) && s.readers == {})
    && next.countMx == Passed(s.countMx, t, HoldsCount(a), HoldsCount(b))
    && (HoldsCount(b) && !HoldsCount(a) ==> s.countMx.None?)
    && next.readers == (if HoldsRead(a) == HoldsRead(b) then s.readers
                        else if HoldsRead(b) then s.readers + {t} else s.readers - {t})
    && (HoldsRead(b) && !HoldsRead(a) ==> s.waiting.None? && s.writer.None?)
    && next.count == (if IsCounted(a) == IsCounted(b) then s.count
                      else if IsCounted(b) then Up(s.count) else Down(s.count))
  }

  lemma LockMoves(s: State, t: Thread)
    requires t in s.at && InLock(s.at[t]) && CanGo(s, t)
    ensures Moved(s, LockGoes(s, t), t)
  {
    hide Up, Down;
  }

  lemma UnlockMoves(s: State, t: Thread)
    requires t in s.at && InUnlock(s.at[t]) && CanGo(s, t)
    ensures Moved(s, UnlockGoes(s, t), t)
  {
    hide Up, Down;
  }

  lemma RLockMoves(s: State, t: Thread)
    requires t in s.at && InRLock(s.at[t]) && CanGo(s, t)
    ensures Moved(s, RLockGoes(s, t), t)
  {
    hide Up, Down;
  }

  lemma RUnlockMoves(s: State, t: Thread)
    requires t in s.at && CanGo(s, t) && !InLock(s.at[t]) && !InUnlock(s.at[t]) && !InRLock(s.at[t])
    ensures Moved(s, RUnlockGoes(s, t), t)
  {
    hide Up, Down;
    match s.at[t]
    case Reading(_) =>
    case UncountReader(_) => assert Moved(s, RUnlockGoes(s, t), t);
    case RUnlockFile =>
    case RUnlockMutex => assert Moved(s, RUnlockGoes(s, t), t);
    case _ =>
  }

  lemma CallMoves(s: State, step: Step)
    requires Enabled(s, step) && IsOwn(step) && !step.Go?
    ensures Moved(s, Next(s, step), step.t)
  {
  }

  lemma StepMoves(s: State, step: Step)
    requires Enabled(s, step) && IsOwn(step)
    ensures Moved(s, Next(s, step), step.t)
  {
    if step.Go? {
      var t := step.t;
      hide Moved, LockGoes, UnlockGoes, RLockGoes, RUnlockGoes;
      if InLock(s.at[t]) {
        LockMoves(s, t);
      } else if InUnlock(s.at[t]) {
        UnlockMoves(s, t);
      } else if InRLock(s.at[t]) {
        RLockMoves(s, t);
      } else {
        RUnlockMoves(s, t);
      }
    } else {
      CallMoves(s, step);
    }
  }

  lemma RLockCovers(s: State, step: Step)
    requires Enabled(s, step) && IsOwn(step) && Moved(s, Next(s, step), step.t) && !step.Missing?
    requires !Uncovered(s.at[step.t]) && step.Go? && InRLock(s.at[step.t])
    ensures !Uncovered(Next(s, step).at[step.t])
  {
    hide MovedMutexes, CanGo, LockGoes, UnlockGoes, RUnlockGoes;
  }

  lemma RUnlockCovers(s: State, step: Step)
    requires Enabled(s, step) && IsOwn(step) && Moved(s, Next(s, step), step.t) && !step.Missing?
    requires !Uncovered(s.at[step.t]) && step.Go? && !InLock(s.at[step.t]) && !InUnlock(s.at[step.t]) && !InRLock(s.at[step.t])
    ensures !Uncovered(Next(s, step).at[step.t])
  {
    hide MovedMutexes, CanGo, LockGoes, UnlockGoes, RLockGoes;
  }

  lemma WriteCovers(s: State, step: Step)
    requires Enabled(s, step) && IsOwn(step) && Moved(s, Next(s, step), step.t) && !step.Missing?
    requires !Uncovered(s.at[step.t]) && (step.Go? ==> InLock(s.at[step.t]) || InUnlock(s.at[step.t]))
    ensures !Uncovered(Next(s, step).at[step.t])
  {
    hide MovedMutexes, CanGo, RLockGoes, RUnlockGoes;
  }

  /** Only a missing lock file leaves a thread uncovered. */
  lemma GoCovers(s: State, step: Step)
    requires Enabled(s, step) && IsOwn(step) && Moved(s, Next(s, step), step.t)
    requires !Uncovered(s.at[step.t]) && !step.Missing?
    ensures !Uncovered(Next(s, step).at[step.t])
  {
    hide Next, Moved, Uncovered;
    if step.Go? && InRLock(s.at[step.t]) {
      RLockCovers(s, step);
    } else if step.Go? ==> InLock(s.at[step.t]) || InUnlock(s.at[step.t]) {
      WriteCovers(s, step);
    } else {
      RUnlockCovers(s, step);
    }
  }

  /** A mutex passed on by its rules keeps having its one owner. */
  lemma OwnerAfter(at: map<Thread, At>, owner: Option<Thread>, holds: At -> bool, t: Thread, to: At)
    requires Owner(at, owner, holds) && t in at
    requires holds(to) && !holds(at[t]) ==> owner.None?
    ensures Owner(at[t := to], Passed(owner, t, holds(at[t]), holds(to)), holds)
  {
  }

  lemma OwnerIs(at: map<Thread, At>, owner: Option<Thread>, holds: At -> bool, t: Thread)
    requires Owner(at, owner, holds) && t in at
    ensures holds(at[t]) <==> owner == Some(t)
  {
  }

  lemma HoldersAfter(at: map<Thread, At>, t: Thread, to: At)
    requires t in at
    ensures Holders(at[t := to]) == if HoldsRead(at[t]) == HoldsRead(to) then Holders(at)
                                    else if HoldsRead(to) then Holders(at) + {t} else Holders(at) - {t}
  {
    hide HoldsRead;
  }

  lemma MutexesStayHeld(s: State, next: State, t: Thread)
    requires MutexesAreHeld(s) && Moved(s, next, t)
    ensures MutexesAreHeld(next)
  {
    var b := next.at[t];
    assert Drains(b) ==> !HoldsWrite(b);
    hide Owner, Holders, Drains, HoldsRead, HoldsWrite, HoldsCount;
    assert Drains(s.at[t]) ==> s.waiting == Some(t) by { OwnerIs(s.at, s.waiting, Drains, t); }
    OwnerAfter(s.at, s.waiting, Drains, t, b);
    OwnerAfter(s.at, s.writer, HoldsWrite, t, b);
    OwnerAfter(s.at, s.countMx, HoldsCount, t, b);
    HoldersAfter(s.at, t, b);
  }

  function Place(s: State, t: Thread): At
  {
    if t in s.at then s.at[t] else Out
  }

  /** What a step may rely on about the other threads. */
  predicate Roles(s: State, next: State, t: Thread)
  {
    var a, b := Place(s, t), Place(next, t);
    && WriterAt(s) == (if HoldsWrite(a) then a else WriterAt(s))
    && WriterAt(next) == (if HoldsWrite(b) then b else if HoldsWrite(a) then Out else WriterAt(s))
    && CounterAt(s) == (if HoldsCount(a) then a else CounterAt(s))
    && CounterAt(next) == (if HoldsCount(b) then b else if HoldsCount(a) then Out else CounterAt(s))
    && (HoldsWrite(b) && !HoldsWrite(a) ==> WriterAt(s) == Out)
    && (HoldsCount(b) && !HoldsCount(a) ==> CounterAt(s) == Out)
    && (HoldsRead(a) || HoldsRead(b) ==> WriterAt(s) == Out)
  }

  /** Where the writer and the owner of the count are, before and after a step of thread t. */
  lemma RolesAfter(s: State, next: State, t: Thread)
    requires MutexesAreHeld(s) && MutexesAreHeld(next) && Moved(s, next, t)
    ensures Roles(s, next, t)
  {
    var a, b := s.at[t], next.at[t];
    OwnerIs(s.at, s.writer, HoldsWrite, t);
    OwnerIs(next.at, next.writer, HoldsWrite, t);
    OwnerIs(s.at, s.countMx, HoldsCount, t);
    OwnerIs(next.at, next.countMx, HoldsCount, t);
    assert HoldsRead(a) ==> t in s.readers;
    assert HoldsRead(b) ==> t in next.readers;
    hide Owner, Holders, Drains, HoldsRead, HoldsWrite, HoldsCount, IsCounted;
  }

  lemma LockKeepsFile(s: State, t: Thread)
    requires t in s.at && InLock(s.at[t]) && CanGo(s, t) && Roles(s, LockGoes(s, t), t) && FileIsHeld(s)
    ensures FileIsHeld(LockGoes(s, t))
  {
    hide WriterAt, CounterAt;
  }

  lemma UnlockKeepsFile(s: State, t: Thread)
    requires t in s.at && InUnlock(s.at[t]) && CanGo(s, t) && Roles(s, UnlockGoes(s, t), t) && FileIsHeld(s)
    ensures FileIsHeld(UnlockGoes(s, t))
  {
    hide WriterAt, CounterAt;
  }

  lemma RLockKeepsFile(s: State, t: Thread)
    requires t in s.at && InRLock(s.at[t]) && CanGo(s, t) && Roles(s, RLockGoes(s, t), t) && FileIsHeld(s)
    requires IsCounted(s.at[t]) ==> s.count > 0
    requires !IsCounted(s.at[t]) ==> s.count < WIDTH - 1
    ensures FileIsHeld(RLockGoes(s, t))
  {
    hide WriterAt, CounterAt;
  }

  lemma RUnlockKeepsFile(s: State, t: Thread)
    requires t in s.at && CanGo(s, t) && !InLock(s.at[t]) && !InUnlock(s.at[t]) && !InRLock(s.at[t])
    requires Roles(s, RUnlockGoes(s, t), t) && FileIsHeld(s)
    requires IsCounted(s.at[t]) ==> s.count > 0
    ensures FileIsHeld(RUnlockGoes(s, t))
  {
    hide WriterAt, CounterAt;
  }

  lemma CallKeepsFile(s: State, step: Step)
    requires Enabled(s, step) && IsOwn(step) && !step.Go? && Roles(s, Next(s, step), step.t) && FileIsHeld(s)
    ensures FileIsHeld(Next(s, step))
  {
    hide WriterAt, CounterAt;
  }

  lemma ForeignKeepsInv(s: State, step: Step)
    requires Inv(s) && Enabled(s, step) && !IsOwn(step)
    ensures Inv(Next(s, step))
  {
    hide Owner, Holders, NobodyCovered, Counted;
  }

  /** The flag of the shared lock is cleared only when no reader is inside. */
  lemma CoveredStay(s: State, step: Step)
    requires Inv(s) && Enabled(s, step) && IsOwn(step) && Moved(s, Next(s, step), step.t)
    ensures !Next(s, step).r ==> NobodyCovered(Next(s, step).at)
  {
    var t, next := step.t, Next(s, step);
    if !next.r {
      ReadsWithFlag(s, step);
      if s.r {
        Cleared(s, step);
        hide Next, Enabled, Moved;
        NobodyInside(s);
      }
      hide Next, Enabled, MutexesAreHeld, FileIsHeld, Counted, ReadsCovered;
      assert next.at == s.at[t := next.at[t]];
    }
  }

  lemma RLockWithFlag(s: State, step: Step)
    requires Enabled(s, step) && IsOwn(step) && !Next(s, step).r && (!s.r ==> NobodyCovered(s.at))
    requires Moved(s, Next(s, step), step.t) && step.Go? && InRLock(s.at[step.t])
    ensures !ReadsCovered(Next(s, step).at[step.t])
  {
    hide MovedMutexes, CanGo, LockGoes, UnlockGoes, RUnlockGoes;
  }

  lemma RUnlockWithFlag(s: State, step: Step)
    requires Enabled(s, step) && IsOwn(step) && !Next(s, step).r && (!s.r ==> NobodyCovered(s.at))
    requires Moved(s, Next(s, step), step.t) && step.Go? && !InLock(s.at[step.t]) && !InUnlock(s.at[step.t]) && !InRLock(s.at[step.t])
    ensures !ReadsCovered(Next(s, step).at[step.t])
  {
    hide MovedMutexes, CanGo, LockGoes, UnlockGoes, RLockGoes;
  }

  lemma WriteWithFlag(s: State, step: Step)
    requires Enabled(s, step) && IsOwn(step) && !Next(s, step).r && (!s.r ==> NobodyCovered(s.at))
    requires Moved(s, Next(s, step), step.t) && (step.Go? ==> InLock(s.at[step.t]) || InUnlock(s.at[step.t]))
    ensures !ReadsCovered(Next(s, step).at[step.t])
  {
    hide MovedMutexes, CanGo, RLockGoes, RUnlockGoes;
  }

  lemma ReadsWithFlag(s: State, step: Step)
    requires Enabled(s, step) && IsOwn(step) && !Next(s, step).r && (!s.r ==> NobodyCovered(s.at))
    requires Moved(s, Next(s, step), step.t)
    ensures !ReadsCovered(Next(s, step).at[step.t])
  {
    hide Next, Moved, NobodyCovered, ReadsCovered;
    if step.Go? && InRLock(s.at[step.t]) {
      RLockWithFlag(s, step);
    } else if step.Go? ==> InLock(s.at[step.t]) || InUnlock(s.at[step.t]) {
      WriteWithFlag(s, step);
    } else {
      RUnlockWithFlag(s, step);
    }
  }

  lemma NobodyInside(s: State)
    requires MutexesAreHeld(s) && s.count == |Counted(s.at)| && (s.readers == {} || s.count == 0)
    ensures NobodyCovered(s.at)
  {
    forall u | u in s.at
      ensures !ReadsCovered(s.at[u])
    {
      CountedAfter(s.at, u, Out);
      assert HoldsRead(s.at[u]) ==> u in Holders(s.at);
    }
  }

  lemma Cleared(s: State, step: Step)
    requires Inv(s) && Enabled(s, step) && IsOwn(step) && s.r && !Next(s, step).r
    ensures s.readers == {} || s.count == 0
  {
    assert step.Go? && (s.at[step.t].Writing? || s.at[step.t].RUnlockFile?);
    OwnerIs(s.at, s.writer, HoldsWrite, step.t);
    OwnerIs(s.at, s.countMx, HoldsCount, step.t);
  }

  lemma GoKeepsFile(s: State, t: Thread)
    requires Inv(s) && t in s.at && CanGo(s, t) && Roles(s, Went(s, t), t)
    ensures FileIsHeld(Went(s, t))
  {
    CountedAfter(s.at, t, Out);
    hide Roles, FileIsHeld, MutexesAreHeld, LockGoes, UnlockGoes, RLockGoes, RUnlockGoes, Counted, NobodyCovered;
    if InLock(s.at[t]) {
      LockKeepsFile(s, t);
    } else if InUnlock(s.at[t]) {
      UnlockKeepsFile(s, t);
    } else if InRLock(s.at[t]) {
      RLockKeepsFile(s, t);
    } else {
      RUnlockKeepsFile(s, t);
    }
  }

  lemma CountStaysExact(s: State, next: State, t: Thread)
    requires Inv(s) && Moved(s, next, t)
    ensures next.count == |Counted(next.at)| && |next.at| < WIDTH
  {
    CountedAfter(s.at, t, next.at[t]);
    hide Counted, IsCounted, MutexesAreHeld, FileIsHeld, NobodyCovered, HoldsRead, HoldsWrite, HoldsCount;
  }

  /** Every step of any thread or process keeps the invariant. */
  lemma StepKeepsInv(s: State, step: Step)
    requires Inv(s) && Enabled(s, step)
    ensures Inv(Next(s, step))
  {
    if IsOwn(step) {
      var next, t := Next(s, step), step.t;
      StepMoves(s, step);
      CoveredStay(s, step);
      hide Moved, Enabled, Next, MutexesAreHeld, FileIsHeld, Counted, NobodyCovered;
      MutexesStayHeld(s, next, t);
      RolesAfter(s, next, t);
      CountStaysExact(s, next, t);
      FileStaysHeld(s, step);
    } else {
      ForeignKeepsInv(s, step);
    }
  }

  lemma FileStaysHeld(s: State, step: Step)
    requires Inv(s) && Enabled(s, step) && IsOwn(step)
    requires Roles(s, Next(s, step), step.t)
    ensures FileIsHeld(Next(s, step))
  {
    hide Roles, FileIsHeld, MutexesAreHeld, Went, Counted, NobodyCovered;
    if step.Go? {
      GoKeepsFile(s, step.t);
    } else {
      CallKeepsFile(s, step);
    }
  }

  // ---------------------------------------------------------------- whole runs

  predicate Allowed(s: State, steps: seq<Step>)
    decreases |steps|
  {
    steps == [] || (Enabled(s, steps[0]) && Allowed(Next(s, steps[0]), steps[1..]))
  }

  function Run(s: State, steps: seq<Step>): State
    requires Allowed(s, steps)
    decreases |steps|
  {
    if steps == [] then s else Run(Next(s, steps[0]), steps[1..])
  }

  lemma {:induction false} RunKeepsInv(s: State, steps: seq<Step>)
    requires Inv(s) && Allowed(s, steps)
    ensures Inv(Run(s, steps))
    decreases |steps|
  {
    hide Inv, Enabled, Next;
    if steps != [] {
      StepKeepsInv(s, steps[0]);
      RunKeepsInv(Next(s, steps[0]), steps[1..]);
    }
  }

  /** In the lock, as seen by its users. */
  predicate Inside(at: At)
  {
    at.Reading? || at.Writing?
  }

  lemma ThreadStays(s: State, step: Step)
    requires Enabled(s, step)
    ensures Next(s, step).at.Keys == s.at.Keys
    ensures forall t :: t in s.at && !Uncovered(s.at[t]) && step != Missing(t) ==> !Uncovered(Next(s, step).at[t])
  {
    if IsOwn(step) {
      StepMoves(s, step);
      if !step.Missing? && !Uncovered(s.at[step.t]) {
        GoCovers(s, step);
      }
      hide Next, MovedMutexes, Uncovered, Enabled;
      var next := Next(s, step);
      assert next.at == s.at[step.t := next.at[step.t]];
    }
  }

  /** A thread that never found the lock file missing is covered. */
  lemma {:induction false} CoveredUnlessMissing(s: State, steps: seq<Step>, t: Thread)
    requires Allowed(s, steps) && Missing(t) !in steps && t in s.at && !Uncovered(s.at[t])
    ensures t in Run(s, steps).at && !Uncovered(Run(s, steps).at[t])
    decreases |steps|
  {
    hide Enabled, Next, Uncovered;
    if steps != [] {
      assert steps[0] in steps;
      ThreadStays(s, steps[0]);
      CoveredUnlessMissing(Next(s, steps[0]), steps[1..], t);
    }
  }

  lemma {:induction false} ThreadsStay(s: State, steps: seq<Step>)
    requires Allowed(s, steps)
    ensures Run(s, steps).at.Keys == s.at.Keys
    decreases |steps|
  {
    if steps != [] {
      ThreadStays(s, steps[0]);
      hide Next;
      ThreadsStay(Next(s, steps[0]), steps[1..]);
    }
  }

  /** At every moment of every run: a reader inside holds the lock file at least shared, and no
      writer of this or another process is inside; a writer inside holds it exclusively and is
      alone; the count is the number of readers between increment and decrement. Only a thread
      that found the lock file missing can be inside without it; it still excludes the others of
      this process. */
  lemma RunsExclude(s: State, steps: seq<Step>, t: Thread)
    requires Initial(s) && Allowed(s, steps) && t in Run(s, steps).at
    ensures var now := Run(s, steps);
            && now.count == |Counted(now.at)|
            && (now.at[t] == Reading(true) ==> !now.held.Free? && !now.foreignWriter)
            && (now.at[t] == Writing(true) ==> now.held.Exclusive? && !now.foreignWriter && now.foreignReaders == 0)
            && (forall u :: u in now.at && u != t && now.at[t].Writing? ==> !Inside(now.at[u]))
            && (Missing(t) !in steps ==> now.at[t] != Reading(false) && now.at[t] != Writing(false))
  {
    ThreadsStay(s, steps);
    if Missing(t) !in steps {
      CoveredUnlessMissing(s, steps, t);
    }
    InitialIsConsistent(s);
    RunKeepsInv(s, steps);
    InvExcludes(Run(s, steps), t);
  }

  lemma InvExcludes(s: State, t: Thread)
    requires Inv(s) && t in s.at
    ensures s.at[t] == Reading(true) ==> !s.held.Free? && !s.foreignWriter
    ensures s.at[t] == Writing(true) ==> s.held.Exclusive? && GrantsExclusive(s)
    ensures forall u :: u in s.at && u != t && s.at[t].Writing? ==> !Inside(s.at[u])
  {
    OwnerIs(s.at, s.writer, HoldsWrite, t);
    if s.at[t].Reading? {
      assert t in s.readers;
    }
    forall u | u in s.at && u != t && s.at[t].Writing?
      ensures !Inside(s.at[u])
    {
      OwnerIs(s.at, s.writer, HoldsWrite, u);
      assert HoldsRead(s.at[u]) ==> u in s.readers;
    }
  }

  // ---------------------------------------------------------------- who waits for whom

  predicate Nobody(at: map<Thread, At>, holds: At -> bool)
  {
    forall u :: u in at ==> !holds(at[u])
  }

  lemma NoOwner(at: map<Thread, At>, owner: Option<Thread>, holds: At -> bool)
    requires Owner(at, owner, holds)
    ensures owner.None? <==> Nobody(at, holds)
  {
  }

  /** What a thread waits for: at the mutexes for the threads that are past them, a writer for the
      readers of this process, and at the file only for other processes. A reader waits for no reader. */
  lemma WaitsFor(s: State, t: Thread)
    requires Inv(s) && t in s.at
    ensures CanGo(s, t) <==>
            match s.at[t]
            case Out => false
            case LockMutex => Nobody(s.at, Drains) && Nobody(s.at, HoldsWrite)
            case RLockMutex => Nobody(s.at, Drains) && Nobody(s.at, HoldsWrite)
            case DrainReaders => Nobody(s.at, HoldsRead)
            case LockFile => s.foreignReaders == 0 && !s.foreignWriter
            case ConvertFile => s.foreignReaders == 0 && !s.foreignWriter
            case RLockFile => !s.foreignWriter
            case RLockCount => Nobody(s.at, HoldsCount)
            case Reading(_) => Nobody(s.at, HoldsCount)
            case _ => true
  {
    NoOwner(s.at, s.waiting, Drains);
    NoOwner(s.at, s.writer, HoldsWrite);
    NoOwner(s.at, s.countMx, HoldsCount);
    NoReader(s);
    OwnerIs(s.at, s.writer, HoldsWrite, t);
    assert HoldsRead(s.at[t]) ==> t in s.readers;
    hide Nobody, Owner, Counted;
  }

  lemma NoReader(s: State)
    requires s.readers == Holders(s.at)
    ensures s.readers == {} <==> Nobody(s.at, HoldsRead)
  {
    if !Nobody(s.at, HoldsRead) {
      var u :| u in s.at && HoldsRead(s.at[u]);
      assert u in s.readers;
    }
  }

  /** Steps that a thread takes on its own. */
  function Going(t: Thread, n: nat): seq<Step>
  {
    if n == 0 then [] else [Go(t)] + Going(t, n - 1)
  }

  /** A thread on its way in as a reader, this many steps before it is inside. */
  predicate Joining(s: State, t: Thread, n: nat)
  {
    && t in s.at && s.waiting.None? && s.writer.None? && s.r
    && match n
       case 5 => s.at[t].RLockCount? && s.countMx.None?
       case 4 => s.at[t].CountReader?
       case 3 => s.at[t].RLockUncount?
       case 2 => s.at[t].RLockMutex?
       case 1 => s.at[t].RLockFile?
       case _ => false
  }

  lemma JoinsStep(s: State, t: Thread, n: nat)
    requires Joining(s, t, n)
    ensures Enabled(s, Go(t))
    ensures var next := Next(s, Go(t));
            && next.at == s.at[t := next.at[t]]
            && if n == 1 then next.at[t] == Reading(true) else Joining(next, t, n - 1)
  {
  }

  lemma {:induction false} Joins(s: State, t: Thread, n: nat)
    requires Joining(s, t, n)
    ensures Allowed(s, Going(t, n)) && Run(s, Going(t, n)).at == s.at[t := Reading(true)]
    decreases n
  {
    JoinsStep(s, t, n);
    hide Joining, Enabled, Next;
    if n > 1 {
      Joins(Next(s, Go(t)), t, n - 1);
    }
  }

  /** A thread can join the readers inside while no thread is between the steps of the count and no
      writer is waiting: then all of them are inside, however many there are. */
  lemma ReadersShare(s: State, t: Thread, u: Thread)
    requires Inv(s) && t in s.at && s.at[t].Out? && u in s.at && s.at[u] == Reading(true)
    requires Nobody(s.at, HoldsCount) && Nobody(s.at, Drains)
    ensures var steps := [RLock(t)] + Going(t, 5);
            Allowed(s, steps) && Run(s, steps).at == s.at[t := Reading(true)]
  {
    NoOwner(s.at, s.countMx, HoldsCount);
    NoOwner(s.at, s.waiting, Drains);
    assert u in s.readers && s.writer.None?;
    assert s.r by {
      assert ReadsCovered(s.at[u]);
    }
    hide Inv, Owner, Nobody, Going;
    Joins(Next(s, RLock(t)), t, 5);
    var steps := [RLock(t)] + Going(t, 5);
    assert steps[0] == RLock(t) && steps[1..] == Going(t, 5);
  }

  /** When every thread is out again, the lock is as it was created. */
  lemma RunsReturn(s: State, steps: seq<Step>)
    requires Initial(s) && Allowed(s, steps)
    requires forall t :: t in Run(s, steps).at ==> Run(s, steps).at[t].Out?
    ensures Initial(Run(s, steps))
  {
    InitialIsConsistent(s);
    RunKeepsInv(s, steps);
    var now := Run(s, steps);
    assert Counted(now.at) == {};
    assert Holders(now.at) == {};
  }

  /** While no other process holds the file, some thread that is under way can always go on. */
  lemma NeverStuck(s: State, t: Thread) returns (u: Thread)
    requires Inv(s) && GrantsExclusive(s) && t in s.at && !s.at[t].Out?
    ensures u in s.at && CanGo(s, u)
  {
    if s.countMx.Some? {
      u := s.countMx.value;
      OwnerIs(s.at, s.countMx, HoldsCount, u);
    } else if s.writer.Some? {
      u := s.writer.value;
      OwnerIs(s.at, s.writer, HoldsWrite, u);
    } else if s.waiting.Some? && s.readers == {} {
      u := s.waiting.value;
      OwnerIs(s.at, s.waiting, Drains, u);
    } else if s.waiting.Some? {
      u :| u in s.readers;
      OwnerIs(s.at, s.countMx, HoldsCount, u);
    } else {
      u := t;
      OwnerIs(s.at, s.waiting, Drains, u);
    }
  }
}
