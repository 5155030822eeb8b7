/** What codebases remember of their heads while requests look up heads, record landed changes
    and update codebases, in every interleaving of their reads and writes. */
module HeadChangeRuns {
  import opened Wrappers
  import opened CommitGraph
  import opened ChangeIndex

  /** What a request has read and is going to write to the record of a codebase: the head it has
      found in git, or the whole record with the head that it names. It is right as long as the
      trunk has not moved since; a record that remembers nothing is always right. */
  datatype Pending =
    | Looked(codebase: string, head: Option<Commit>, right: bool)
    | Read(cb: Codebase, head: Option<Commit>, right: bool)

  datatype State = State(changes: map<ID, Change>, memory: Memory, pending: map<nat, Pending>)

  datatype Step =
      // importing, linking and creating changes
    | Index(changes: map<ID, Change>)
    | Move(codebase: string, commit: Commit)
    | Unset(codebase: string)
    | SetAs(ch: Change)
      // the head that git names, to be remembered
    | LookUp(request: nat, codebase: string)
      // the record of a codebase, to be updated in other respects
    | Get(request: nat, codebase: string)
    | Put(request: nat, cb: Codebase)

  /** The commit that a record names as the head of its codebase. */
  function Named(changes: map<ID, Change>, cb: Codebase): Option<Commit>
  {
    if cb.calculatedHead && cb.cachedHead.Some? && cb.cachedHead.value in changes then Some(changes[cb.cachedHead.value].commit)
    else None
  }

  function CodebaseOf(p: Pending): string
  {
    if p.Looked? then p.codebase else p.cb.id
  }

  /** The record that is written: a found head is remembered by its change. */
  predicate Writes(changes: map<ID, Change>, p: Pending, cb: Codebase)
  {
    match p
    case Looked(codebase, head, _) => cb.id == codebase && cb.calculatedHead && Recalls(changes, head, cb)
    case Read(read, _, _) => cb == read
  }

  ghost predicate Enabled(s: State, step: Step)
  {
    match step
    case Index(changes) => KeepsCommits(s.changes, changes)
    case Move(_, _) | Unset(_) | SetAs(_) => true
    case LookUp(request, _) => request !in s.pending
    case Get(request, codebase) => request !in s.pending && codebase in s.memory.codebases
    case Put(request, cb) => request in s.pending && Writes(s.changes, s.pending[request], cb)
  }

  function AfterMove(p: Pending, codebase: string): Pending
  {
    if CodebaseOf(p) != codebase || (p.Read? && !p.cb.calculatedHead) then p else p.(right := false)
  }

  ghost function Next(s: State, step: Step): State
    requires Enabled(s, step)
  {
    var m := s.memory;
    match step
    case Index(changes) => s.(changes := changes)
    case Move(codebase, commit) =>
      s.(memory := Moved(m, codebase, commit), pending := map r | r in s.pending :: AfterMove(s.pending[r], codebase))
    case Unset(codebase) => s.(memory := Written(m, Codebase(codebase, false, None), true))
    case SetAs(ch) => s.(memory := Written(m, Codebase(ch.codebase, true, Some(ch.id)), IsHead(s.changes, m.trunks, ch)))
    case LookUp(request, codebase) =>
      s.(pending := s.pending[request := Looked(codebase, HeadOf(m.trunks, codebase), true)])
    case Get(request, codebase) =>
      var cb := m.codebases[codebase];
      s.(pending := s.pending[request := Read(cb, Named(s.changes, cb), codebase !in m.stale || !cb.calculatedHead)])
    case Put(request, cb) => s.(memory := Written(m, cb, s.pending[request].right), pending := s.pending - {request})
  }

  ghost predicate Allowed(s: State, steps: seq<Step>)
    decreases |steps|
  {
    steps == [] || (Enabled(s, steps[0]) && Allowed(Next(s, steps[0]), steps[1..]))
  }

  ghost function Run(s: State, steps: seq<Step>): State
    requires Allowed(s, steps)
    decreases |steps|
  {
    if steps == [] then s else Run(Next(s, steps[0]), steps[1..])
  }

  /** What is to be written is right if it says so. */
  predicate PendingIsRight(s: State, p: Pending)
  {
    p.right ==>
      match p
      case Looked(codebase, head, _) => head == HeadOf(s.memory.trunks, codebase)
      case Read(cb, _, _) => Recalls(s.changes, HeadOf(s.memory.trunks, cb.id), cb)
  }

  ghost predicate Inv(s: State)
  {
    && Right(s.changes, s.memory)
    && (forall id :: id in s.memory.codebases ==> s.memory.codebases[id].id == id)
    && (forall r :: r in s.pending ==> PendingIsRight(s, s.pending[r]))
  }

  /** Before anything is remembered. */
  ghost predicate Init(s: State)
  {
    && s.pending == map[]
    && forall id :: id in s.memory.codebases ==> s.memory.codebases[id].id == id && !s.memory.codebases[id].calculatedHead
  }

  lemma RecallsStill(was: map<ID, Change>, now: map<ID, Change>, head: Option<Commit>, cb: Codebase)
    requires KeepsCommits(was, now) && Recalls(was, head, cb)
    ensures Recalls(now, head, cb)
  {
  }

  lemma IndexKeepsInv(s: State, changes: map<ID, Change>)
    requires Inv(s) && KeepsCommits(s.changes, changes)
    ensures Inv(s.(changes := changes))
  {
    hide Recalls;
    AllStillRecall(s.changes, changes, s.memory.codebases - s.memory.stale, s.memory.trunks);
    forall r | r in s.pending
      ensures PendingIsRight(s.(changes := changes), s.pending[r])
    {
      var p := s.pending[r];
      if p.Read? && p.right {
        RecallsStill(s.changes, changes, HeadOf(s.memory.trunks, p.cb.id), p.cb);
      }
    }
  }

  lemma MoveKeepsInv(s: State, codebase: string, commit: Commit)
    requires Inv(s)
    ensures Inv(Next(s, Move(codebase, commit)))
  {
    MovedIsRight(s.changes, s.memory, codebase, commit);
    var next := Next(s, Move(codebase, commit));
    forall r | r in next.pending
      ensures PendingIsRight(next, next.pending[r])
    {
      assert PendingIsRight(s, s.pending[r]);
    }
  }

  /** Writing a record that is right, or is marked as stale. */
  lemma WriteKeepsInv(s: State, cb: Codebase, right: bool, rest: map<nat, Pending>)
    requires Inv(s) && (right ==> Recalls(s.changes, HeadOf(s.memory.trunks, cb.id), cb))
    requires forall r :: r in rest ==> r in s.pending && rest[r] == s.pending[r]
    ensures Inv(s.(memory := Written(s.memory, cb, right), pending := rest))
  {
    hide Recalls, Right;
    WrittenIsRight(s.changes, s.memory, cb, right);
    var next := s.(memory := Written(s.memory, cb, right), pending := rest);
    forall r | r in next.pending
      ensures PendingIsRight(next, next.pending[r])
    {
      assert PendingIsRight(s, s.pending[r]);
    }
  }

  lemma StepKeepsInv(s: State, step: Step)
    requires Inv(s) && Enabled(s, step)
    ensures Inv(Next(s, step))
  {
    hide Right, Moved, Written, KeepsCommits;
    match step
    case Index(changes) => IndexKeepsInv(s, changes);
    case Move(codebase, commit) => MoveKeepsInv(s, codebase, commit);
    case Unset(codebase) => WriteKeepsInv(s, Codebase(codebase, false, None), true, s.pending);
    case SetAs(ch) =>
      WriteKeepsInv(s, Codebase(ch.codebase, true, Some(ch.id)), IsHead(s.changes, s.memory.trunks, ch), s.pending);
    case LookUp(_, _) =>
    case Get(_, codebase) => StoredIsRight(s, codebase);
    case Put(request, cb) =>
      assert PendingIsRight(s, s.pending[request]);
      WriteKeepsInv(s, cb, s.pending[request].right, s.pending - {request});
  }

  lemma StoredIsRight(s: State, codebase: string)
    requires Inv(s) && codebase in s.memory.codebases
    ensures codebase !in s.memory.stale ==> Recalls(s.changes, HeadOf(s.memory.trunks, codebase), s.memory.codebases[codebase])
  {
    assert codebase !in s.memory.stale ==> codebase in s.memory.codebases - s.memory.stale;
  }

  // ---------------------------------------------------------------- whole runs

  lemma {:induction false} RunKeepsInv(s: State, steps: seq<Step>)
    requires Inv(s) && Allowed(s, steps)
    ensures Inv(Run(s, steps))
    decreases |steps|
  {
    if steps != [] {
      StepKeepsInv(s, steps[0]);
      RunKeepsInv(Next(s, steps[0]), steps[1..]);
    }
  }

  /** At any moment of any run: what a codebase that is not stale remembers is the head of its trunk. */
  lemma RunsRememberHeads(s: State, steps: seq<Step>, codebase: string)
    requires Init(s) && Allowed(s, steps)
    requires var m := Run(s, steps).memory; codebase in m.codebases && codebase !in m.stale
    ensures var t := Run(s, steps);
            var cb := t.memory.codebases[codebase];
            cb.calculatedHead ==> NamesHead(HeadOf(t.memory.trunks, codebase), codebase, Remembered(t.changes, cb))
  {
    RunKeepsInv(s, steps);
    StoredIsRight(Run(s, steps), codebase);
  }

  /** No write for the codebase is outdated. */
  ghost predicate NoneOutdated(s: State, codebase: string)
  {
    forall r :: r in s.pending && CodebaseOf(s.pending[r]) == codebase ==> s.pending[r].right
  }

  /** A step that neither moves the trunk nor sets a change that is not its head. */
  predicate Quiet(s: State, step: Step, codebase: string)
  {
    match step
    case Move(c, _) => c != codebase
    case SetAs(ch) => ch.codebase != codebase || IsHead(s.changes, s.memory.trunks, ch)
    case _ => true
  }

  ghost predicate AllQuiet(s: State, steps: seq<Step>, codebase: string)
    requires Allowed(s, steps)
    decreases |steps|
  {
    steps == [] || (Quiet(s, steps[0], codebase) && AllQuiet(Next(s, steps[0]), steps[1..], codebase))
  }

  lemma QuietStep(s: State, step: Step, codebase: string)
    requires Enabled(s, step) && Inv(s) && Quiet(s, step, codebase)
    requires NoneOutdated(s, codebase) && codebase !in s.memory.stale
    ensures NoneOutdated(Next(s, step), codebase) && codebase !in Next(s, step).memory.stale
  {
    hide Right;
  }

  /** Once the memory of a codebase is right and no outdated write is under way it stays right,
      whatever else is read and written, until the trunk moves or a wrong change is set. */
  lemma {:induction false} QuietStaysRight(s: State, steps: seq<Step>, codebase: string)
    requires Inv(s) && Allowed(s, steps) && AllQuiet(s, steps, codebase)
    requires NoneOutdated(s, codebase) && codebase !in s.memory.stale
    ensures NoneOutdated(Run(s, steps), codebase) && codebase !in Run(s, steps).memory.stale
    decreases |steps|
  {
    if steps != [] {
      StepKeepsInv(s, steps[0]);
      QuietStep(s, steps[0], codebase);
      QuietStaysRight(Next(s, steps[0]), steps[1..], codebase);
    }
  }

  /** What a step leaves of a codebase: the record that was written, if any, and its staleness; a move
      of the trunk makes it stale, and what was written last is stale exactly if it was not right. */
  lemma StepWrites(s: State, step: Step, codebase: string)
    requires Enabled(s, step) && codebase in s.memory.codebases
    ensures var m, t := s.memory, Next(s, step).memory;
            && codebase in t.codebases
            && match step
               case Move(c, commit) =>
                 && t.codebases == m.codebases && t.trunks == m.trunks[c := commit]
                 && (codebase in t.stale <==> c == codebase || codebase in m.stale)
               case Unset(c) =>
                 && t.trunks == m.trunks
                 && (if c == codebase then t.codebases[c] == Codebase(c, false, None) && c !in t.stale else SameMemory(m, t, codebase))
               case SetAs(ch) =>
                 && t.trunks == m.trunks
                 && (if ch.codebase == codebase then
                       && t.codebases[codebase] == Codebase(codebase, true, Some(ch.id))
                       && (codebase !in t.stale <==> IsHead(s.changes, m.trunks, ch))
                     else SameMemory(m, t, codebase))
               case Put(request, cb) =>
                 && t.trunks == m.trunks
                 && (if cb.id == codebase then
                       t.codebases[codebase] == cb && (codebase !in t.stale <==> s.pending[request].right)
                     else SameMemory(m, t, codebase))
               case _ => t == m
  {
  }

  predicate SameMemory(m: Memory, t: Memory, codebase: string)
    requires codebase in m.codebases && codebase in t.codebases
  {
    t.codebases[codebase] == m.codebases[codebase] && (codebase in t.stale <==> codebase in m.stale)
  }

  /** A landing that no late write follows leaves the landed change remembered. */
  lemma LandingRemembers(s: State, changes: map<ID, Change>, landed: Change)
    requires landed.codebase in s.memory.codebases && KeepsCommits(s.changes, changes)
    requires landed.id in changes && changes[landed.id] == landed
    ensures var c := landed.codebase;
            var steps := [Move(c, landed.commit), Index(changes), SetAs(landed)];
            && Allowed(s, steps)
            && var t := Run(s, steps);
               && HeadOf(t.memory.trunks, c) == Some(landed.commit) && c in t.memory.codebases && c !in t.memory.stale
               && t.memory.codebases[c].calculatedHead && Remembered(t.changes, t.memory.codebases[c]) == Ok(landed)
  {
    var c := landed.codebase;
    var move, index, remember := Move(c, landed.commit), Index(changes), SetAs(landed);
    var s1 := Next(s, move);
    assert s1.changes == s.changes && Enabled(s1, index);
    var s2 := Next(s1, index);
    assert s2.changes == changes && s2.memory == s1.memory;
    var s3 := Next(s2, remember);
    assert s3.changes == changes;
    StepWrites(s, move, c);
    StepWrites(s2, remember, c);
    NoSteps(s3);
    hide Next, Enabled, Allowed, Run, KeepsCommits;
    FirstStep(s2, remember, []);
    FirstStep(s1, index, [remember]);
    FirstStep(s, move, [index] + [remember]);
    assert [move] + ([index] + [remember]) == [move, index, remember] && [remember] + [] == [remember];
  }

  // ---------------------------------------------------------------- outdated lookups

  /** A change that a record remembers is one of its codebase. */
  predicate Stands(changes: map<ID, Change>, cb: Codebase)
  {
    cb.calculatedHead && cb.cachedHead.Some? ==>
      cb.cachedHead.value in changes && changes[cb.cachedHead.value].codebase == cb.id
  }

  /** Two pending writes of the same; only whether they are right may differ. */
  predicate SameWrite(p: Pending, q: Pending)
  {
    match (p, q)
    case (Looked(c, head, _), Looked(c', head', _)) => c == c' && head == head'
    case (Read(cb, head, _), Read(cb', head', _)) => cb == cb' && head == head'
    case _ => false
  }

  lemma StepKeepsWrite(s: State, step: Step, request: nat)
    requires Enabled(s, step) && request in s.pending && !(step.Put? && step.request == request)
    ensures request in Next(s, step).pending && SameWrite(s.pending[request], Next(s, step).pending[request])
    ensures KeepsCommits(s.changes, Next(s, step).changes)
  {
  }

  lemma {:induction false} RunKeepsWrite(s: State, steps: seq<Step>, request: nat)
    requires Allowed(s, steps) && request in s.pending
    requires forall i :: 0 <= i < |steps| ==> !(steps[i].Put? && steps[i].request == request)
    ensures request in Run(s, steps).pending && SameWrite(s.pending[request], Run(s, steps).pending[request])
    ensures KeepsCommits(s.changes, Run(s, steps).changes)
    decreases |steps|
  {
    hide Next, Enabled, KeepsCommits;
    if steps == [] {
      assert KeepsCommits(s.changes, s.changes) by { NothingChanged(s.changes); }
    } else {
      var next := Next(s, steps[0]);
      StepKeepsWrite(s, steps[0], request);
      RunKeepsWrite(next, steps[1..], request);
      KeepsCommitsTwice(s.changes, next.changes, Run(s, steps).changes);
    }
  }

  lemma NothingChanged(changes: map<ID, Change>)
    ensures KeepsCommits(changes, changes)
  {
  }

  /** The head that a request has read: in git, or as the record named it. */
  function HeadRead(s: State, read: Step): Option<Commit>
    requires read.LookUp? || (read.Get? && read.codebase in s.memory.codebases)
  {
    if read.LookUp? then HeadOf(s.memory.trunks, read.codebase) else Named(s.changes, s.memory.codebases[read.codebase])
  }

  /** After anything has happened in between, what a request writes names the head of the trunk exactly
      if the trunk is where the request has read it to be; an empty history has no head change
      wherever it is, and a record that remembers nothing does no harm. */
  lemma LateWrite(s: State, read: Step, steps: seq<Step>, cb: Codebase)
    requires Enabled(s, read) && (read.LookUp? || read.Get?)
    requires read.Get? ==> var record := s.memory.codebases[read.codebase]; record.id == read.codebase && Stands(s.changes, record)
    requires Allowed(Next(s, read), steps)
    requires forall i :: 0 <= i < |steps| ==> !(steps[i].Put? && steps[i].request == read.request)
    requires var t := Run(Next(s, read), steps);
             Faithful(t.changes) && Enabled(t, Put(read.request, cb)) && read.codebase in t.memory.codebases
    ensures var t := Run(Next(s, read), steps);
            var head, now, next := HeadRead(s, read), HeadOf(t.memory.trunks, read.codebase), Next(t, Put(read.request, cb));
            && next.memory.codebases[read.codebase] == cb
            && (cb.calculatedHead <==> read.LookUp? || s.memory.codebases[read.codebase].calculatedHead)
            && (cb.calculatedHead ==>
                  (NamesHead(now, read.codebase, Remembered(next.changes, cb)) <==>
                     now == head || (TrunkLog(now) == [] && TrunkLog(head) == [])))
  {
    RunKeepsWrite(Next(s, read), steps, read.request);
    var t := Run(Next(s, read), steps);
    hide Run, Allowed;
    if read.Get? {
      RecallsStill(s.changes, t.changes, HeadRead(s, read), cb);
    }
    if cb.calculatedHead {
      WriteNamesHead(t, read.request, cb, HeadRead(s, read));
    }
  }

  lemma WriteNamesHead(t: State, request: nat, cb: Codebase, head: Option<Commit>)
    requires Faithful(t.changes) && Enabled(t, Put(request, cb)) && cb.id in t.memory.codebases
    requires cb.calculatedHead && Recalls(t.changes, head, cb)
    ensures var now, next := HeadOf(t.memory.trunks, cb.id), Next(t, Put(request, cb));
            && next.memory.codebases[cb.id] == cb
            && (NamesHead(now, cb.id, Remembered(next.changes, cb)) <==>
                  now == head || (TrunkLog(now) == [] && TrunkLog(head) == []))
  {
  }

  lemma FirstStep(s: State, step: Step, rest: seq<Step>)
    requires Enabled(s, step) && Allowed(Next(s, step), rest)
    ensures Allowed(s, [step] + rest) && Run(s, [step] + rest) == Run(Next(s, step), rest)
  {
    assert ([step] + rest)[1..] == rest;
  }

  lemma NoSteps(s: State)
    ensures Allowed(s, []) && Run(s, []) == s
  {
  }

  /** A landing while another request is about to write that the head is the first change. */
  lemma LandingBetween(s: State, c: string, first: Change, landed: Change) returns (steps: seq<Step>)
    requires c in s.memory.codebases && s.changes == map[0 := first] && s.pending.Keys == {0}
    requires first.id == 0 && first.codebase == c && landed.id == 1 && landed.codebase == c && landed.commit != first.commit
    requires CodebaseOf(s.pending[0]) == c && Writes(s.changes, s.pending[0], Codebase(c, true, Some(0)))
    ensures Allowed(s, steps) && |steps| == 4 && forall i :: 0 <= i < 4 ==> !steps[i].LookUp?
    ensures var t := Run(s, steps);
            && c in t.memory.codebases && t.memory.codebases[c] == Codebase(c, true, Some(0)) && t.pending == map[]
            && !NamesHead(HeadOf(t.memory.trunks, c), c, Remembered(t.changes, t.memory.codebases[c]))
  {
    var move, index, remember := Move(c, landed.commit), Index(map[0 := first, 1 := landed]), SetAs(landed);
    var put := Put(0, Codebase(c, true, Some(0)));
    var s1 := Next(s, move);
    var s2 := Next(s1, index);
    var s3 := Next(s2, remember);
    assert Enabled(s3, put);
    var s4 := Next(s3, put);
    assert s4.changes == map[0 := first, 1 := landed] && HeadOf(s4.memory.trunks, c) == Some(landed.commit);
    NoSteps(s4);
    hide Next, Allowed, Run, NamesHead;
    FirstStep(s3, put, []);
    FirstStep(s2, remember, [put]);
    FirstStep(s1, index, [remember] + [put]);
    FirstStep(s, move, [index] + ([remember] + [put]));
    steps := [move] + ([index] + ([remember] + [put]));
  }

  /** So a lookup that began before a landing and ends after it undoes what the landing has
      remembered: the trunk rests at the landed commit, yet the codebase names the one before. */
  lemma LookupUndoesLanding() returns (s: State, steps: seq<Step>, c: string)
    ensures Init(s) && Allowed(s, steps) && c in Run(s, steps).memory.codebases
    ensures var t := Run(s, steps);
            var cb := t.memory.codebases[c];
            && cb.calculatedHead && t.pending == map[]
            && !NamesHead(HeadOf(t.memory.trunks, c), c, Remembered(t.changes, cb))
  {
    c := "c";
    var before := Commit([], map[], "before");
    var after := Commit([before], map[], "after");
    var first, landed := Change(0, c, before, None, None), Change(1, c, after, Some(0), None);
    s := State(map[0 := first], Memory(map[c := Codebase(c, false, None)], map[c := before], {}), map[]);
    var lookUp := LookUp(0, c);
    var rest := LandingBetween(Next(s, lookUp), c, first, landed);
    FirstStep(s, lookUp, rest);
    steps := [lookUp] + rest;
  }

  /** The same happens without any late lookup, when another update of the codebase has read its record
      before the landing and writes it back after it. */
  lemma UpdateUndoesLanding() returns (s: State, steps: seq<Step>, c: string)
    ensures Init(s) && Allowed(s, steps) && c in Run(s, steps).memory.codebases
    ensures |steps| == 7 && steps[0].LookUp? && steps[1].Put? && forall i :: 2 <= i < 7 ==> !steps[i].LookUp?
    ensures var t := Run(s, steps);
            var cb := t.memory.codebases[c];
            && cb.calculatedHead && t.pending == map[]
            && !NamesHead(HeadOf(t.memory.trunks, c), c, Remembered(t.changes, cb))
  {
    c := "c";
    var before := Commit([], map[], "before");
    var after := Commit([before], map[], "after");
    var first, landed := Change(0, c, before, None, None), Change(1, c, after, Some(0), None);
    s := State(map[0 := first], Memory(map[c := Codebase(c, false, None)], map[c := before], {}), map[]);
    var lookUp, put, get := LookUp(0, c), Put(0, Codebase(c, true, Some(0))), Get(0, c);
    var s1 := Next(s, lookUp);
    var s2 := Next(s1, put);
    var s3 := Next(s2, get);
    var rest := LandingBetween(s3, c, first, landed);
    hide Next, Allowed, Run, NamesHead;
    FirstStep(s2, get, rest);
    FirstStep(s1, put, [get] + rest);
    FirstStep(s, lookUp, [put] + ([get] + rest));
    steps := [lookUp] + ([put] + ([get] + rest));
  }
}
