/** The pool of temporary views: directories that callers claim and give back by renaming them. */
module TemporaryViews {
  import opened Sets
  import opened Wrappers

  const IN_USE := "using-"
  const TMP := "tmp-"

  // ---------------------------------------------------------------- names

  /** Removes characters of the cutset from the start of a string. */
  function TrimLeft(s: string, cutset: string): string
  {
    if s != "" && s[0] in cutset then TrimLeft(s[1..], cutset) else s
  }

  lemma {:induction false} TrimsPrefix(p: string, v: string, cutset: string)
    requires forall i :: 0 <= i < |p| ==> p[i] in cutset
    ensures TrimLeft(p + v, cutset) == TrimLeft(v, cutset)
  {
    if p == "" {
      assert p + v == v;
    } else {
      assert (p + v)[1..] == p[1..] + v;
      TrimsPrefix(p[1..], v, cutset);
    }
  }

  lemma {:induction false} TrimmedIsShorter(v: string, cutset: string)
    ensures |TrimLeft(v, cutset)| <= |v|
    ensures TrimLeft(v, cutset) == v <==> v == "" || v[0] !in cutset
  {
    if v != "" && v[0] in cutset {
      TrimmedIsShorter(v[1..], cutset);
    }
  }

  /** Trimming the mark off a marked name gives back the name exactly if the name does not
      itself start with a character of the mark; the names of temporary views do not. */
  lemma TrimmingUnmarks(v: string)
    ensures TrimLeft(IN_USE + v, IN_USE) == v <==> v == "" || v[0] !in IN_USE
    ensures TMP <= v ==> TrimLeft(IN_USE + v, IN_USE) == v
  {
    TrimsPrefix(IN_USE, v, IN_USE);
    TrimmedIsShorter(v, IN_USE);
    if TMP <= v {
      assert v[0] == 't' && 't' !in IN_USE;
    }
  }

  predicate IsTemporary(v: string)
  {
    TMP <= v
  }

  function Temporaries(dirs: set<string>): set<string>
  {
    set v | v in dirs && IsTemporary(v)
  }

  // ---------------------------------------------------------------- the pool

  type CallerId = nat

  /** Where a caller is: it has picked a view to claim, or claimed one by the name it is in use under. */
  datatype Caller = Idle | Picked(view: string) | Claimed(view: string)

  datatype State = State(dirs: set<string>, callers: map<CallerId, Caller>, peak: nat)

  datatype Step =
      // with too few temporary views, a new one is named; its directory appears when it is cloned
    | Add(c: CallerId, uuid: string)
    | Clone(c: CallerId)
    | Pick(c: CallerId, view: string)
    | Mark(c: CallerId)
    | Release(c: CallerId)

  function NewName(uuid: string): string
  {
    IN_USE + (TMP + uuid)
  }

  /** A uuid names no view yet. */
  predicate Fresh(s: State, uuid: string)
  {
    && TMP + uuid !in s.dirs && NewName(uuid) !in s.dirs
    && forall c :: c in s.callers ==>
         s.callers[c] != Picked(TMP + uuid) && s.callers[c] != Claimed(NewName(uuid))
  }

  predicate Enabled(s: State, step: Step, minTmpBufferSize: int)
  {
    step.c in s.callers &&
    match step
    case Add(c, uuid) => s.callers[c].Idle? && |Temporaries(s.dirs)| < minTmpBufferSize && Fresh(s, uuid)
    case Pick(c, view) => s.callers[c].Idle? && |Temporaries(s.dirs)| >= minTmpBufferSize && view in Temporaries(s.dirs)
    case Clone(c) => s.callers[c].Claimed?
    case Mark(c) => s.callers[c].Picked?
    case Release(c) => s.callers[c].Claimed?
  }

  /** Renaming is atomic; it fails if there is no such directory, or already one of the new name. */
  function Renamed(dirs: set<string>, from: string, to: string): Option<set<string>>
  {
    if from in dirs && to !in dirs then Some(dirs - {from} + {to}) else None
  }

  function Active(callers: map<CallerId, Caller>): set<CallerId>
  {
    set c | c in callers && !callers[c].Idle?
  }

  function With(s: State, c: CallerId, caller: Caller): State
  {
    var callers := s.callers[c := caller];
    s.(callers := callers, peak := if |Active(callers)| > s.peak then |Active(callers)| else s.peak)
  }

  function Next(s: State, step: Step): State
    requires step.c in s.callers && (step.Mark? ==> s.callers[step.c].Picked?)
    requires step.Clone? || step.Release? ==> s.callers[step.c].Claimed?
  {
    match step
    case Add(c, uuid) => With(s, c, Claimed(NewName(uuid)))
    case Pick(c, view) => With(s, c, Picked(view))
    case Clone(c) => s.(dirs := s.dirs + {s.callers[c].view})
    case Mark(c) =>
      var view := s.callers[c].view;
      (match Renamed(s.dirs, view, IN_USE + view)
       case None => With(s, c, Idle)
       case Some(dirs) => With(s.(dirs := dirs), c, Claimed(IN_USE + view)))
    case Release(c) =>
      var view := s.callers[c].view;
      (match Renamed(s.dirs, view, TrimLeft(view, IN_USE))
       case None => With(s, c, Idle)
       case Some(dirs) => With(s.(dirs := dirs), c, Idle))
  }

  // ---------------------------------------------------------------- the invariant

  /** Unmarked, the view that a caller has claimed. */
  predicate MarkedTemporary(view: string)
  {
    IN_USE <= view && IsTemporary(view[|IN_USE|..])
  }

  function Claimants(callers: map<CallerId, Caller>): set<CallerId>
  {
    set c | c in callers && callers[c].Claimed?
  }

  predicate ClaimsAreApart(s: State)
  {
    && (forall c :: c in s.callers && s.callers[c].Claimed? ==>
          MarkedTemporary(s.callers[c].view) && s.callers[c].view[|IN_USE|..] !in s.dirs)
    && (forall c, d :: c in s.callers && d in s.callers && c != d && s.callers[c].Claimed? && s.callers[d].Claimed? ==>
          s.callers[c].view != s.callers[d].view)
  }

  predicate MarkedAreClaimed(s: State)
  {
    && (forall v :: v in s.dirs && MarkedTemporary(v) ==> Claimed(v) in s.callers.Values)
    && (forall c :: c in s.callers && s.callers[c].Picked? ==> IsTemporary(s.callers[c].view))
  }

  function Max(a: int, b: int): int
  {
    if a > b then a else b
  }

  /** No more temporary views, claimed or not, than the bound. */
  predicate Bounded(s: State, initially: nat, minTmpBufferSize: int)
  {
    && |Temporaries(s.dirs)| + |Claimants(s.callers)| <= Max(initially, minTmpBufferSize - 1 + s.peak)
    && |Active(s.callers)| <= s.peak
  }

  predicate Inv(s: State, initially: nat, minTmpBufferSize: int)
  {
    ClaimsAreApart(s) && MarkedAreClaimed(s) && Bounded(s, initially, minTmpBufferSize)
  }

  /** Nobody is using the pool, and no view is marked as in use. */
  predicate Initial(s: State)
  {
    && (forall c :: c in s.callers ==> s.callers[c].Idle?)
    && (forall v :: v in s.dirs ==> !MarkedTemporary(v)) && s.peak == 0
  }

  lemma InitialIsConsistent(s: State, minTmpBufferSize: int)
    requires Initial(s)
    ensures Inv(s, |Temporaries(s.dirs)|, minTmpBufferSize)
  {
    assert Claimants(s.callers) == {} && Active(s.callers) == {};
  }

  // ---------------------------------------------------------------- every step keeps the invariant

  lemma ActiveAfter(callers: map<CallerId, Caller>, c: CallerId, to: Caller)
    requires c in callers
    ensures |Active(callers[c := to])| ==
            |Active(callers)| + (if to.Idle? then 0 else 1) - (if callers[c].Idle? then 0 else 1)
  {
    assert c in Active(callers) <==> !callers[c].Idle?;
    if to.Idle? {
      assert Active(callers[c := to]) == Active(callers) - {c};
    } else {
      assert Active(callers[c := to]) == Active(callers) + {c};
    }
  }

  lemma ClaimantsAfter(callers: map<CallerId, Caller>, c: CallerId, to: Caller)
    requires c in callers
    ensures |Claimants(callers[c := to])| ==
            |Claimants(callers)| + (if to.Claimed? then 1 else 0) - (if callers[c].Claimed? then 1 else 0)
  {
    assert c in Claimants(callers) <==> callers[c].Claimed?;
    if to.Claimed? {
      assert Claimants(callers[c := to]) == Claimants(callers) + {c};
    } else {
      assert Claimants(callers[c := to]) == Claimants(callers) - {c};
    }
  }

  /** Whoever has claimed a view is active; a caller that has not is one less. */
  lemma ClaimantsAreActive(callers: map<CallerId, Caller>, c: CallerId)
    requires c in callers && !callers[c].Claimed?
    ensures |Claimants(callers)| + (if callers[c].Idle? then 0 else 1) <= |Active(callers)|
  {
    assert c in Active(callers) <==> !callers[c].Idle?;
    Smaller(Claimants(callers), Active(callers) - {c});
  }

  lemma CallersAfter(callers: map<CallerId, Caller>, c: CallerId, to: Caller)
    requires c in callers
    ensures |Active(callers[c := to])| ==
            |Active(callers)| + (if to.Idle? then 0 else 1) - (if callers[c].Idle? then 0 else 1)
    ensures |Claimants(callers[c := to])| ==
            |Claimants(callers)| + (if to.Claimed? then 1 else 0) - (if callers[c].Claimed? then 1 else 0)
    ensures !callers[c].Claimed? ==> |Claimants(callers)| + (if callers[c].Idle? then 0 else 1) <= |Active(callers)|
  {
    ActiveAfter(callers, c, to);
    ClaimantsAfter(callers, c, to);
    if !callers[c].Claimed? {
      ClaimantsAreActive(callers, c);
    }
  }

  lemma MarkedName(v: string)
    requires IsTemporary(v)
    ensures MarkedTemporary(IN_USE + v) && (IN_USE + v)[|IN_USE|..] == v && !IsTemporary(IN_USE + v) && !MarkedTemporary(v)
    ensures TrimLeft(IN_USE + v, IN_USE) == v
  {
    TrimmingUnmarks(v);
    assert (IN_USE + v)[0] == 'u' && TMP[0] == 't' && v[0] == 't';
  }

  /** A claimed view is its temporary name, marked; giving it back removes exactly the mark. */
  lemma UnmarkedName(v: string) returns (t: string)
    requires MarkedTemporary(v)
    ensures t == v[|IN_USE|..] && IsTemporary(t) && v == IN_USE + t && TrimLeft(v, IN_USE) == t && !IsTemporary(v)
  {
    t := v[|IN_USE|..];
    assert v == IN_USE + t;
    MarkedName(t);
  }

  lemma AddedApart(s: State, c: CallerId, uuid: string)
    requires ClaimsAreApart(s) && c in s.callers && s.callers[c].Idle? && Fresh(s, uuid)
    ensures ClaimsAreApart(With(s, c, Claimed(NewName(uuid))))
  {
    MarkedName(TMP + uuid);
    hide IsTemporary, MarkedTemporary, TrimLeft, Active;
  }

  lemma AddedMarks(s: State, c: CallerId, view: string)
    requires MarkedAreClaimed(s) && c in s.callers && s.callers[c].Idle?
    ensures MarkedAreClaimed(With(s, c, Claimed(view)))
  {
    ValuesAfter(s.callers, c, Claimed(view));
    hide IsTemporary, MarkedTemporary, Active;
  }

  lemma AddKeeps(s: State, c: CallerId, uuid: string, initially: nat, min: int)
    requires Inv(s, initially, min) && Enabled(s, Add(c, uuid), min)
    ensures Inv(Next(s, Add(c, uuid)), initially, min)
  {
    AddedApart(s, c, uuid);
    AddedMarks(s, c, NewName(uuid));
    CallersAfter(s.callers, c, Claimed(NewName(uuid)));
    hide Temporaries, Active, Claimants, ClaimsAreApart, MarkedAreClaimed, Fresh;
  }

  /** Taking another caller's name away takes no claim away from the views of the others. */
  lemma ValuesAfter(callers: map<CallerId, Caller>, c: CallerId, to: Caller)
    requires c in callers
    ensures forall x :: x in callers.Values && x != callers[c] ==> x in callers[c := to].Values
    ensures to in callers[c := to].Values
  {
    var after := callers[c := to];
    forall x | x in callers.Values && x != callers[c]
      ensures x in after.Values
    {
      var d :| d in callers && callers[d] == x;
      assert d in after && after[d] == x;
    }
    assert c in after && after[c] == to;
  }

  lemma PickKeeps(s: State, c: CallerId, view: string, initially: nat, min: int)
    requires Inv(s, initially, min) && Enabled(s, Pick(c, view), min)
    ensures Inv(Next(s, Pick(c, view)), initially, min)
  {
    CallersAfter(s.callers, c, Picked(view));
    ValuesAfter(s.callers, c, Picked(view));
  }

  lemma CloneKeeps(s: State, c: CallerId, initially: nat, min: int)
    requires Inv(s, initially, min) && Enabled(s, Clone(c), min)
    ensures Inv(Next(s, Clone(c)), initially, min)
  {
    var view := s.callers[c].view;
    var t := UnmarkedName(view);
    assert Temporaries(s.dirs + {view}) == Temporaries(s.dirs);
    assert Claimed(view) in s.callers.Values;
    forall d | d in s.callers && s.callers[d].Claimed?
      ensures s.callers[d].view[|IN_USE|..] !in s.dirs + {view}
    {
      var u := UnmarkedName(s.callers[d].view);
    }
  }

  lemma IdleKeeps(s: State, c: CallerId, initially: nat, min: int)
    requires Inv(s, initially, min) && c in s.callers
    requires s.callers[c].Claimed? ==> s.callers[c].view !in s.dirs
    ensures Inv(With(s, c, Idle), initially, min)
  {
    CallersAfter(s.callers, c, Idle);
    ValuesAfter(s.callers, c, Idle);
  }

  /** A claim on a view that is not in the pool leaves the claims apart. */
  lemma ClaimedApart(s: State, c: CallerId, view: string, dirs: set<string>)
    requires ClaimsAreApart(s) && c in s.callers && !s.callers[c].Claimed? && IsTemporary(view)
    requires view in s.dirs && dirs == s.dirs - {view} + {IN_USE + view}
    ensures ClaimsAreApart(With(s.(dirs := dirs), c, Claimed(IN_USE + view)))
  {
    MarkedName(view);
    forall d | d in s.callers && s.callers[d].Claimed?
      ensures s.callers[d].view[|IN_USE|..] !in dirs && s.callers[d].view != IN_USE + view
    {
      var u := UnmarkedName(s.callers[d].view);
      MarkedName(u);
      assert IN_USE + view != u;
    }
    hide IsTemporary, MarkedTemporary, TrimLeft, Active;
  }

  lemma ClaimedMarks(s: State, c: CallerId, view: string, dirs: set<string>)
    requires MarkedAreClaimed(s) && c in s.callers && !s.callers[c].Claimed?
    requires dirs == s.dirs - {view} + {IN_USE + view}
    ensures MarkedAreClaimed(With(s.(dirs := dirs), c, Claimed(IN_USE + view)))
  {
    ValuesAfter(s.callers, c, Claimed(IN_USE + view));
    hide IsTemporary, MarkedTemporary, Active;
  }

  lemma MarkKeeps(s: State, c: CallerId, initially: nat, min: int)
    requires Inv(s, initially, min) && Enabled(s, Mark(c), min)
    ensures Inv(Next(s, Mark(c)), initially, min)
  {
    var view := s.callers[c].view;
    if view in s.dirs && IN_USE + view !in s.dirs {
      var dirs := s.dirs - {view} + {IN_USE + view};
      MarkedName(view);
      assert Temporaries(dirs) == Temporaries(s.dirs) - {view} && view in Temporaries(s.dirs);
      CallersAfter(s.callers, c, Claimed(IN_USE + view));
      ValuesAfter(s.callers, c, Claimed(IN_USE + view));
      ClaimedApart(s, c, view, dirs);
      ClaimedMarks(s, c, view, dirs);
      hide ClaimsAreApart, MarkedAreClaimed, Temporaries, Active, Claimants, IsTemporary, MarkedTemporary, TrimLeft;
    } else {
      IdleKeeps(s, c, initially, min);
    }
  }

  /** Giving a view back leaves the claims of the others apart. */
  lemma ReleasedApart(s: State, c: CallerId, dirs: set<string>)
    requires ClaimsAreApart(s) && c in s.callers && s.callers[c].Claimed?
    requires dirs == s.dirs - {s.callers[c].view} + {s.callers[c].view[|IN_USE|..]}
    ensures ClaimsAreApart(With(s.(dirs := dirs), c, Idle))
  {
    var t := UnmarkedName(s.callers[c].view);
    forall d | d in s.callers && d != c && s.callers[d].Claimed?
      ensures s.callers[d].view[|IN_USE|..] !in dirs
    {
      var u := UnmarkedName(s.callers[d].view);
    }
    hide IsTemporary, MarkedTemporary, TrimLeft, Active;
  }

  lemma ReleaseKeeps(s: State, c: CallerId, initially: nat, min: int)
    requires Inv(s, initially, min) && Enabled(s, Release(c), min)
    ensures Inv(Next(s, Release(c)), initially, min)
  {
    var view := s.callers[c].view;
    var t := UnmarkedName(view);
    if view in s.dirs {
      var dirs := s.dirs - {view} + {t};
      MarkedName(t);
      assert Temporaries(dirs) == Temporaries(s.dirs) + {t} && t !in Temporaries(s.dirs);
      CallersAfter(s.callers, c, Idle);
      ValuesAfter(s.callers, c, Idle);
      ReleasedApart(s, c, dirs);
      ReleasedMarks(s, c, t, dirs);
      hide ClaimsAreApart, MarkedAreClaimed, Temporaries, Active, Claimants, IsTemporary, TrimLeft;
    } else {
      IdleKeeps(s, c, initially, min);
    }
  }

  lemma ReleasedMarks(s: State, c: CallerId, t: string, dirs: set<string>)
    requires MarkedAreClaimed(s) && c in s.callers && s.callers[c].Claimed? && !MarkedTemporary(t)
    requires dirs == s.dirs - {s.callers[c].view} + {t}
    ensures MarkedAreClaimed(With(s.(dirs := dirs), c, Idle))
  {
    ValuesAfter(s.callers, c, Idle);
    hide IsTemporary, MarkedTemporary, Active;
  }

  lemma StepKeepsInv(s: State, step: Step, initially: nat, min: int)
    requires Inv(s, initially, min) && Enabled(s, step, min)
    ensures Inv(Next(s, step), initially, min)
  {
    match step
    case Add(c, uuid) => AddKeeps(s, c, uuid, initially, min);
    case Pick(c, view) => PickKeeps(s, c, view, initially, min);
    case Clone(c) => CloneKeeps(s, c, initially, min);
    case Mark(c) => MarkKeeps(s, c, initially, min);
    case Release(c) => ReleaseKeeps(s, c, initially, min);
  }

  // ---------------------------------------------------------------- whole runs

  predicate Allowed(s: State, steps: seq<Step>, min: int)
    decreases |steps|
  {
    steps == [] || (Enabled(s, steps[0], min) && Allowed(Next(s, steps[0]), steps[1..], min))
  }

  function Run(s: State, steps: seq<Step>, min: int): State
    requires Allowed(s, steps, min)
    decreases |steps|
  {
    if steps == [] then s else Run(Next(s, steps[0]), steps[1..], min)
  }

  lemma {:induction false} RunKeepsInv(s: State, steps: seq<Step>, initially: nat, min: int)
    requires Inv(s, initially, min) && Allowed(s, steps, min)
    ensures Inv(Run(s, steps, min), initially, min)
    decreases |steps|
  {
    if steps != [] {
      StepKeepsInv(s, steps[0], initially, min);
      hide Inv, Enabled, Next;
      RunKeepsInv(Next(s, steps[0]), steps[1..], initially, min);
    }
  }

  function Pool(dirs: set<string>): set<string>
  {
    set v | v in dirs && (IsTemporary(v) || MarkedTemporary(v))
  }

  /** The names under which views are in use. */
  function ClaimedViews(callers: map<CallerId, Caller>, claimants: set<CallerId>): (views: set<string>)
    requires claimants <= Claimants(callers)
    ensures forall v :: v in views <==> exists c :: c in claimants && callers[c].view == v
  {
    set c | c in claimants :: callers[c].view
  }

  lemma {:induction false} NoMoreViewsThanClaimants(callers: map<CallerId, Caller>, claimants: set<CallerId>)
    requires claimants <= Claimants(callers)
    ensures |ClaimedViews(callers, claimants)| <= |claimants|
    decreases claimants
  {
    if claimants != {} {
      var c :| c in claimants;
      NoMoreViewsThanClaimants(callers, claimants - {c});
      assert ClaimedViews(callers, claimants) == ClaimedViews(callers, claimants - {c}) + {callers[c].view};
    }
  }

  lemma MarkedViewsAreFew(s: State, marked: set<string>)
    requires MarkedAreClaimed(s)
    requires forall v :: v in marked ==> v in s.dirs && MarkedTemporary(v)
    ensures |marked| <= |Claimants(s.callers)|
  {
    hide IsTemporary, MarkedTemporary;
    var claimants := Claimants(s.callers);
    forall v | v in marked
      ensures v in ClaimedViews(s.callers, claimants)
    {
      var c :| c in s.callers && s.callers[c] == Claimed(v);
      assert c in claimants;
    }
    Smaller(marked, ClaimedViews(s.callers, claimants));
    NoMoreViewsThanClaimants(s.callers, claimants);
  }

  lemma PoolIsBounded(s: State, initially: nat, min: int)
    requires Inv(s, initially, min)
    ensures |Pool(s.dirs)| <= Max(initially, min - 1 + s.peak)
  {
    hide ClaimsAreApart, Claimants, IsTemporary, MarkedTemporary;
    var marked := Pool(s.dirs) - Temporaries(s.dirs);
    MarkedViewsAreFew(s, marked);
    assert Pool(s.dirs) == Temporaries(s.dirs) + marked;
  }

  /** A view that is in use is not also in the pool. */
  lemma MarkedIsNotInPool(s: State, v: string)
    requires ClaimsAreApart(s) && MarkedAreClaimed(s) && IsTemporary(v) && IN_USE + v in s.dirs
    ensures v !in s.dirs
  {
    MarkedName(v);
    var c :| c in s.callers && s.callers[c] == Claimed(IN_USE + v);
  }

  /** In every run no two callers use the same view, no view exists both marked and unmarked,
      and the pool never holds more than minTmpBufferSize - 1 views and one for each of the
      callers that were active at one time, unless it held more from the start. */
  lemma RunsShareNothing(s: State, steps: seq<Step>, min: int)
    requires Initial(s) && Allowed(s, steps, min)
    ensures var now := Run(s, steps, min);
            && (forall c, d :: c in now.callers && d in now.callers && c != d && now.callers[c].Claimed? ==>
                  now.callers[c] != now.callers[d])
            && (forall v :: IsTemporary(v) && v in now.dirs ==> IN_USE + v !in now.dirs)
            && |Pool(now.dirs)| <= Max(|Temporaries(s.dirs)|, min - 1 + now.peak)
  {
    InitialIsConsistent(s, min);
    RunKeepsInv(s, steps, |Temporaries(s.dirs)|, min);
    var now := Run(s, steps, min);
    PoolIsBounded(now, |Temporaries(s.dirs)|, min);
    forall v | IsTemporary(v) && v in now.dirs
      ensures IN_USE + v !in now.dirs
    {
      if IN_USE + v in now.dirs {
        MarkedIsNotInPool(now, v);
      }
    }
  }

  /** In every run, a caller that gives its view back restores the name it had before it was marked. */
  lemma RunsRestoreNames(s: State, steps: seq<Step>, c: CallerId, min: int)
    requires Initial(s) && Allowed(s, steps, min) && Enabled(Run(s, steps, min), Release(c), min)
    ensures var now := Run(s, steps, min);
            var view := now.callers[c].view;
            var next := Next(now, Release(c));
            && next.callers[c].Idle?
            && exists t :: IsTemporary(t) && view == IN_USE + t
                           && next.dirs == if view in now.dirs then now.dirs - {view} + {t} else now.dirs
  {
    InitialIsConsistent(s, min);
    RunKeepsInv(s, steps, |Temporaries(s.dirs)|, min);
    var t := UnmarkedName(Run(s, steps, min).callers[c].view);
  }

  /** In every run, a caller claims the view it has picked exactly if it is still in the pool, where
      the marked name then takes its place; otherwise it has nothing and the pool is as it was. */
  lemma RunsClaim(s: State, steps: seq<Step>, c: CallerId, min: int)
    requires Initial(s) && Allowed(s, steps, min) && Enabled(Run(s, steps, min), Mark(c), min)
    ensures var now := Run(s, steps, min);
            var view := now.callers[c].view;
            var next := Next(now, Mark(c));
            && next.callers == now.callers[c := if view in now.dirs then Claimed(IN_USE + view) else Idle]
            && next.dirs == if view in now.dirs then now.dirs - {view} + {IN_USE + view} else now.dirs
  {
    InitialIsConsistent(s, min);
    RunKeepsInv(s, steps, |Temporaries(s.dirs)|, min);
    var now := Run(s, steps, min);
    var view := now.callers[c].view;
    if IN_USE + view in now.dirs {
      MarkedIsNotInPool(now, view);
    }
  }

  /** A caller that nobody comes between claims any view of a pool that is large enough, and
      giving it back leaves the pool and the callers as they were. */
  lemma UndisturbedClaim(s: State, c: CallerId, view: string, initially: nat, min: int)
    requires Inv(s, initially, min) && c in s.callers && s.callers[c].Idle?
    requires view in Temporaries(s.dirs) && |Temporaries(s.dirs)| >= min
    ensures var steps := [Pick(c, view), Mark(c), Release(c)];
            && Allowed(s, steps, min)
            && Next(Next(s, steps[0]), steps[1]).callers[c] == Claimed(IN_USE + view)
            && Run(s, steps, min).dirs == s.dirs && Run(s, steps, min).callers == s.callers
  {
    var steps := [Pick(c, view), Mark(c), Release(c)];
    PicksAndMarks(s, c, view, initially, min);
    var s1 := Next(s, steps[0]);
    var s2 := Next(s1, steps[1]);
    GivesBack(s2, c, view, min);
    var s3 := Next(s2, steps[2]);
    hide Next, TrimLeft, Inv, Enabled, Temporaries;
    assert steps[1..] == [Mark(c), Release(c)] && steps[1..][1..] == [Release(c)] && [Release(c)][1..] == [];
    OneStep(s2, [Release(c)], min);
    OneStep(s1, [Mark(c), Release(c)], min);
    OneStep(s, steps, min);
    assert s3.dirs == s.dirs && s3.callers == s.callers;
  }

  lemma PicksAndMarks(s: State, c: CallerId, view: string, initially: nat, min: int)
    requires Inv(s, initially, min) && c in s.callers && s.callers[c].Idle?
    requires view in Temporaries(s.dirs) && |Temporaries(s.dirs)| >= min
    ensures Enabled(s, Pick(c, view), min) && Enabled(Next(s, Pick(c, view)), Mark(c), min)
    ensures var next := Next(Next(s, Pick(c, view)), Mark(c));
            && next.dirs == s.dirs - {view} + {IN_USE + view} && view !in next.dirs
            && next.callers == s.callers[c := Claimed(IN_USE + view)]
  {
    if IN_USE + view in s.dirs {
      MarkedIsNotInPool(s, view);
    }
    MarkedName(view);
    hide Active, TrimLeft, Inv;
    var s1 := Next(s, Pick(c, view));
    assert s1.dirs == s.dirs && s1.callers == s.callers[c := Picked(view)];
    assert s.callers[c := Picked(view)][c := Claimed(IN_USE + view)] == s.callers[c := Claimed(IN_USE + view)];
  }

  lemma GivesBack(s: State, c: CallerId, view: string, min: int)
    requires c in s.callers && s.callers[c] == Claimed(IN_USE + view) && IsTemporary(view)
    requires IN_USE + view in s.dirs && view !in s.dirs
    ensures Enabled(s, Release(c), min)
    ensures var next := Next(s, Release(c));
            next.dirs == s.dirs - {IN_USE + view} + {view} && next.callers == s.callers[c := Idle]
  {
    MarkedName(view);
    hide Active, TrimLeft;
  }

  /** When the pool is too small, a caller that nobody comes between gets a new view, and giving it back
      adds it to the pool. */
  lemma UndisturbedAdd(s: State, c: CallerId, uuid: string, min: int)
    requires c in s.callers && s.callers[c].Idle? && |Temporaries(s.dirs)| < min && Fresh(s, uuid)
    ensures var steps := [Add(c, uuid), Clone(c), Release(c)];
            && Allowed(s, steps, min)
            && Next(Next(s, steps[0]), steps[1]).callers[c] == Claimed(IN_USE + (TMP + uuid))
            && Next(Next(s, steps[0]), steps[1]).dirs == s.dirs + {IN_USE + (TMP + uuid)}
            && Run(s, steps, min).dirs == s.dirs + {TMP + uuid} && Run(s, steps, min).callers == s.callers
  {
    var steps := [Add(c, uuid), Clone(c), Release(c)];
    AddsAndClones(s, c, uuid, min);
    var s1 := Next(s, steps[0]);
    var s2 := Next(s1, steps[1]);
    GivesBack(s2, c, TMP + uuid, min);
    var s3 := Next(s2, steps[2]);
    hide Next, TrimLeft, Enabled, Temporaries;
    assert steps[1..] == [Clone(c), Release(c)] && steps[1..][1..] == [Release(c)] && [Release(c)][1..] == [];
    OneStep(s2, [Release(c)], min);
    OneStep(s1, [Clone(c), Release(c)], min);
    OneStep(s, steps, min);
    assert s3.dirs == s.dirs + {TMP + uuid} && s3.callers == s.callers;
  }

  lemma AddsAndClones(s: State, c: CallerId, uuid: string, min: int)
    requires c in s.callers && s.callers[c].Idle? && |Temporaries(s.dirs)| < min && Fresh(s, uuid)
    ensures Enabled(s, Add(c, uuid), min) && Enabled(Next(s, Add(c, uuid)), Clone(c), min)
    ensures var next := Next(Next(s, Add(c, uuid)), Clone(c));
            && next.dirs == s.dirs + {IN_USE + (TMP + uuid)} && TMP + uuid !in next.dirs
            && next.callers == s.callers[c := Claimed(IN_USE + (TMP + uuid))]
  {
    MarkedName(TMP + uuid);
    hide Active, TrimLeft, Temporaries;
    assert TMP + uuid != IN_USE + (TMP + uuid);
  }

  lemma OneStep(s: State, steps: seq<Step>, min: int)
    requires steps != [] && Enabled(s, steps[0], min)
    ensures Allowed(s, steps, min) <==> Allowed(Next(s, steps[0]), steps[1..], min)
    ensures Allowed(s, steps, min) ==> Run(s, steps, min) == Run(Next(s, steps[0]), steps[1..], min)
  {
  }
}
