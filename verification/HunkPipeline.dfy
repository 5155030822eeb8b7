/** Reading one file diff through the whole pipeline, and what the patches it returns do. */
module HunkPipeline {
  import opened Wrappers
  import opened Lines
  import opened HunkBody
  import opened PatchAlgebra
  import opened Unidiff

  datatype Options = Options(expanding: bool, hunksFilter: Option<set<string>>, inverting: bool, joining: bool)

  // ---------------------------------------------------------------- diffs without changes

  predicate Marked(line: string)
  {
    line != "" && (line[0] == '-' || line[0] == '+')
  }

  predicate Changes(lines: seq<string>)
  {
    exists i :: 0 <= i < |lines| && Marked(lines[i])
  }

  predicate HasChanges(hs: seq<Hunk>)
  {
    exists i :: 0 <= i < |hs| && Changes(LinesOf(hs[i].body))
  }

  lemma {:induction false} UnmarkedSides(lines: seq<string>)
    requires NoneEmpty(lines) && !Changes(lines)
    ensures Side(lines, '+') == Side(lines, '-')
  {
    if lines != [] {
      assert !Marked(lines[0]);
      assert forall i :: 0 <= i < |lines[1..]| ==> lines[1..][i] == lines[i + 1];
      UnmarkedSides(lines[1..]);
    }
  }

  /** Only a diff that changes nothing is taken for an empty one. */
  lemma {:induction false} NothingChanges(hs: seq<Hunk>, a: seq<string>, i: nat, b: seq<string>, j: nat)
    requires PatchFrom(hs, a, i, b, j) && !HasChanges(hs)
    ensures i <= |a| && j <= |b| && a[i..] == b[j..]
    decreases |hs|
  {
    hide OldSide, NewSide, OldLines, LinesOf, MarkFits, Changes, PatchFrom, HasChanges;
    if hs == [] {
      NothingLeft(a, i, b, j);
    } else {
      var h := hs[0];
      var i', j' := OldPos(h) + h.origLines, NewPos(h) + h.newLines;
      FirstStep(hs, a, i, b, j);
      FirstUnchanged(hs);
      NothingChanges(hs[1..], a, i', b, j');
      SameSides(h);
      SameInThreeParts(a, i, OldPos(h), i', b, j, NewPos(h), j');
    }
  }

  lemma NothingLeft(a: seq<string>, i: nat, b: seq<string>, j: nat)
    requires PatchFrom([], a, i, b, j)
    ensures i <= |a| && j <= |b| && a[i..] == b[j..]
  {
  }

  lemma FirstUnchanged(hs: seq<Hunk>)
    requires hs != [] && !HasChanges(hs)
    ensures !Changes(LinesOf(hs[0].body)) && !HasChanges(hs[1..])
  {
    hide Changes;
    assert forall k :: 0 <= k < |hs[1..]| ==> hs[1..][k] == hs[k + 1];
  }

  lemma SameSides(h: Hunk)
    requires MarkFits(h) && !Changes(LinesOf(h.body))
    ensures OldLines(h) == NewSide(h.body)
  {
    LinesRoundTrip(h.body);
    UnmarkedSides(LinesOf(h.body));
    if h.origNoNewlineAt != 0 {
      MarkedOldSide(h);
      var i :| 0 <= i < |LinesOf(h.body)| && LinesOf(h.body)[i] != "" && LinesOf(h.body)[i][0] == '-';
      assert Marked(LinesOf(h.body)[i]);
    }
  }

  lemma SameInThreeParts(a: seq<string>, i: nat, p: nat, i': nat, b: seq<string>, j: nat, q: nat, j': nat)
    requires i <= p <= i' <= |a| && j <= q <= j' <= |b|
    requires a[i..p] == b[j..q] && a[p..i'] == b[q..j'] && a[i'..] == b[j'..]
    ensures a[i..] == b[j..]
  {
    assert a[i..] == a[i..p] + (a[p..i'] + a[i'..]);
    assert b[j..] == b[j..q] + (b[q..j'] + b[j'..]);
  }

  // ---------------------------------------------------------------- the pipeline

  /** The patches a file diff is split into before any is filtered out. */
  function Resolved(fd: FileDiff, expanding: bool, idOf: FileDiff -> string): seq<Patch>
  {
    if fd.hunks != [] && expanding then Printed(ExpandHunks(fd), idOf) else [NewHunk(fd, idOf)]
  }

  function Filtered(hunks: seq<Patch>, options: Options, idOf: FileDiff -> string): Result<seq<Patch>>
  {
    match options.hunksFilter
    case None => Ok(hunks)
    case Some(chosen) =>
      match FilterFrom(hunks, chosen, options.inverting, 0, idOf)
      case EmptyPatch => EmptyPatch
      case Ok(kept) => if kept == [] then EmptyPatch else Ok(kept)
  }

  /** Every patch has the header of the file diff. */
  predicate PartsOf(hunks: seq<Patch>, fd: FileDiff)
  {
    forall i :: 0 <= i < |hunks| ==> hunks[i].diff == fd.(hunks := hunks[i].diff.hunks)
  }

  lemma PartsCanBeInverted(hunks: seq<Patch>, fd: FileDiff)
    requires PartsOf(hunks, fd) && CanInvert(fd)
    ensures CanInvertAll(hunks)
  {
    forall i | 0 <= i < |hunks|
      ensures CanInvert(hunks[i].diff)
    {
      assert CanInvert(fd.(hunks := hunks[i].diff.hunks));
    }
  }

  lemma {:induction false} FilterKeepsHeaders(hunks: seq<Patch>, chosen: set<string>, inverting: bool, dropped: int,
                                              idOf: FileDiff -> string, fd: FileDiff)
    requires PartsOf(hunks, fd)
    ensures var r := FilterFrom(hunks, chosen, inverting, dropped, idOf);
            r.Ok? ==> PartsOf(r.value, fd)
  {
    if hunks != [] {
      var h := hunks[0];
      hide Shift, Growth;
      forall d: int
        ensures var r := FilterFrom(hunks[1..], chosen, inverting, d, idOf);
                r.Ok? ==> PartsOf(r.value, fd)
      {
        FilterKeepsHeaders(hunks[1..], chosen, inverting, d, idOf, fd);
      }
    }
  }

  lemma ResolvedKeepsHeaders(fd: FileDiff, options: Options, idOf: FileDiff -> string)
    ensures PartsOf(Resolved(fd, options.expanding, idOf), fd)
    ensures var r := Filtered(Resolved(fd, options.expanding, idOf), options, idOf);
            r.Ok? ==> PartsOf(r.value, fd)
  {
    if options.hunksFilter.Some? {
      FilterKeepsHeaders(Resolved(fd, options.expanding, idOf), options.hunksFilter.value, options.inverting, 0, idOf, fd);
    }
  }

  /** The patches before they are joined. */
  function Prepared(fd: FileDiff, options: Options, idOf: FileDiff -> string): Result<seq<Patch>>
    requires options.inverting ==> CanInvert(fd)
  {
    if fd.hunks != [] && !HasChanges(fd.hunks) then EmptyPatch
    else
      ResolvedKeepsHeaders(fd, options, idOf);
      match Filtered(Resolved(fd, options.expanding, idOf), options, idOf)
      case EmptyPatch => EmptyPatch
      case Ok(kept) =>
        if options.inverting then
          PartsCanBeInverted(kept, fd);
          Ok(InvertedAll(kept, idOf))
        else Ok(kept)
  }

  /** What may be returned for a file diff: its prepared patches, joined by name if asked to. */
  ghost predicate IsReading(fd: FileDiff, options: Options, idOf: FileDiff -> string, r: Result<seq<Patch>>)
    requires options.inverting ==> CanInvert(fd)
  {
    match Prepared(fd, options, idOf)
    case EmptyPatch => r == EmptyPatch
    case Ok(hunks) => r.Ok? && if options.joining then IsJoin(hunks, r.value, idOf) else r.value == hunks
  }

  method ReadWithHunkResolver(fd: FileDiff, options: Options, idOf: FileDiff -> string) returns (r: Result<seq<Patch>>)
    requires options.inverting ==> CanInvert(fd)
    ensures IsReading(fd, options, idOf, r)
  {
    ResolvedKeepsHeaders(fd, options, idOf);
    hide IsJoin, FilterFrom, InvertedAll, PartsOf;
    var hunks: seq<Patch>;
    if fd.hunks != [] {
      if !HasChanges(fd.hunks) {
        return EmptyPatch;
      }
      if options.expanding {
        hunks := Printed(ExpandHunks(fd), idOf);
      } else {
        hunks := [NewHunk(fd, idOf)];
      }
    } else {
      hunks := [NewHunk(fd, idOf)];
    }
    if options.hunksFilter.Some? {
      var filtered := Filter(hunks, options.hunksFilter.value, options.inverting, idOf);
      if filtered.EmptyPatch? {
        return EmptyPatch;
      }
      hunks := filtered.value;
      if |hunks| == 0 {
        return EmptyPatch;
      }
    }
    if options.inverting {
      PartsCanBeInverted(hunks, fd);
      hunks := InvertPatches(hunks, idOf);
    }
    if options.joining {
      hunks := JoinHunks(hunks, idOf);
    }
    return Ok(hunks);
  }

  // ---------------------------------------------------------------- filtering single hunks selects hunks

  function Chosen(fd: FileDiff, hs: seq<Hunk>, chosen: set<string>, idOf: FileDiff -> string): (keep: seq<bool>)
    ensures |keep| == |hs|
    ensures forall i :: 0 <= i < |hs| ==> (keep[i] <==> idOf(fd.(hunks := [hs[i]])) in chosen)
  {
    if hs == [] then [] else [idOf(fd.(hunks := [hs[0]])) in chosen] + Chosen(fd, hs[1..], chosen, idOf)
  }

  function SinglePatches(fd: FileDiff, hs: seq<Hunk>, idOf: FileDiff -> string): (r: seq<Patch>)
    ensures |r| == |hs|
    ensures forall i :: 0 <= i < |hs| ==> r[i] == NewHunk(fd.(hunks := [hs[i]]), idOf)
  {
    Printed(Singles(fd, hs), idOf)
  }

  lemma SinglePatchesStep(fd: FileDiff, h: Hunk, hs: seq<Hunk>, idOf: FileDiff -> string)
    ensures SinglePatches(fd, [h] + hs, idOf) == [NewHunk(fd.(hunks := [h]), idOf)] + SinglePatches(fd, hs, idOf)
  {
  }

  /** Filtering patches of one hunk each is selecting hunks. */
  lemma {:induction false} FilterSelects(fd: FileDiff, hs: seq<Hunk>, chosen: set<string>, inverting: bool, dropped: int,
                                         idOf: FileDiff -> string)
    ensures FilterFrom(SinglePatches(fd, hs, idOf), chosen, inverting, dropped, idOf) ==
            Ok(SinglePatches(fd, Select(hs, Chosen(fd, hs, chosen, idOf), dropped, inverting), idOf))
    decreases |hs|
  {
    var patches, keep := SinglePatches(fd, hs, idOf), Chosen(fd, hs, chosen, idOf);
    if hs != [] {
      assert patches[1..] == SinglePatches(fd, hs[1..], idOf);
      assert keep[1..] == Chosen(fd, hs[1..], chosen, idOf);
      hide SinglePatches, Int32, Growth;
      if keep[0] {
        FilterSelects(fd, hs[1..], chosen, inverting, dropped, idOf);
        var h := Shift(hs[0], dropped, inverting);
        SinglePatchesStep(fd, h, Select(hs[1..], keep[1..], dropped, inverting), idOf);
        assert [h] + [hs[0]][1..] == [h];
      } else {
        FilterSelects(fd, hs[1..], chosen, inverting, Int32(dropped + Int32(Growth(hs[0]))), idOf);
      }
    }
  }

  lemma InvertSingles(fd: FileDiff, hs: seq<Hunk>, idOf: FileDiff -> string)
    requires CanInvert(fd)
    ensures CanInvertAll(SinglePatches(fd, hs, idOf))
    ensures InvertedAll(SinglePatches(fd, hs, idOf), idOf) == SinglePatches(Inverted(fd), InvertHunks(hs), idOf)
  {
    PartsCanBeInverted(SinglePatches(fd, hs, idOf), fd);
    forall i | 0 <= i < |hs|
      ensures Inverted(fd.(hunks := [hs[i]])) == Inverted(fd).(hunks := [InvertHunks(hs)[i]])
    {
      InvertedAt(hs, i);
      hide InvertHunk;
      assert InvertHunks([hs[i]]) == [InvertHunk(hs[i])];
    }
    hide Inverted, CanInvert, InvertHunks;
  }

  // ---------------------------------------------------------------- joining single hunks

  /** The hunks of all patches, in order. */
  function HunksOf(patches: seq<Patch>): seq<Hunk>
  {
    if patches == [] then [] else HunksOf(patches[..|patches| - 1]) + patches[|patches| - 1].diff.hunks
  }

  lemma {:induction false} HunksOfSingles(fd: FileDiff, hs: seq<Hunk>, idOf: FileDiff -> string)
    ensures HunksOf(SinglePatches(fd, hs, idOf)) == hs
    decreases |hs|
  {
    hide Printed, Singles, SinglePatches;
    if hs != [] {
      var n := |hs| - 1;
      HunksOfSingles(fd, hs[..n], idOf);
      assert SinglePatches(fd, hs, idOf)[..n] == SinglePatches(fd, hs[..n], idOf);
      assert hs[..n] + [hs[n]] == hs;
    }
  }

  /** All patches of one file diff fall into one group. */
  lemma {:induction false} OneGroup(patches: seq<Patch>, fd: FileDiff)
    requires PartsOf(patches, fd)
    ensures |Group(patches, Names(fd))| == |patches|
    ensures patches != [] ==> Group(patches, Names(fd))[0] == patches[0].diff
    ensures AllHunks(Group(patches, Names(fd))) == HunksOf(patches)
    decreases |patches|
  {
    if patches != [] {
      var n := |patches| - 1;
      OneGroup(patches[..n], fd);
      var group := Group(patches, Names(fd));
      assert group[..n] == Group(patches[..n], Names(fd));
    }
  }

  /** Joining the patches of one file diff yields one patch with all their hunks. */
  lemma JoinOne(patches: seq<Patch>, fd: FileDiff, out: seq<Patch>, idOf: FileDiff -> string)
    requires patches != [] && PartsOf(patches, fd) && IsJoin(patches, out, idOf)
    ensures out == [NewHunk(fd.(hunks := HunksOf(patches)), idOf)]
  {
    var names := Names(fd);
    assert patches[0] in patches;
    forall i | 0 <= i < |out|
      ensures Names(out[i].diff) == names
    {
      assert IsJoinOf(patches, out[i], idOf);
      if Names(out[i].diff) != names {
        OtherGroupsAreEmpty(patches, fd, Names(out[i].diff));
      }
    }
    assert |out| > 1 ==> Names(out[0].diff) != Names(out[1].diff);
    OneGroup(patches, fd);
    assert IsJoinOf(patches, out[0], idOf);
  }

  lemma {:induction false} OtherGroupsAreEmpty(patches: seq<Patch>, fd: FileDiff, names: (string, string))
    requires PartsOf(patches, fd) && names != Names(fd)
    ensures Group(patches, names) == []
    decreases |patches|
  {
    if patches != [] {
      OtherGroupsAreEmpty(patches[..|patches| - 1], fd, names);
    }
  }

  // ---------------------------------------------------------------- what the returned patches do

  /** The header of what is returned, and its hunks when these hunks have been chosen. */
  function Turned(fd: FileDiff, inverting: bool): FileDiff
    requires inverting ==> CanInvert(fd)
  {
    if inverting then Inverted(fd) else fd
  }

  function TurnedHunks(hs: seq<Hunk>, inverting: bool): (r: seq<Hunk>)
    ensures |r| == |hs|
  {
    if inverting then InvertHunks(hs) else hs
  }

  lemma PreparedSingles(fd: FileDiff, chosen: set<string>, inverting: bool, joining: bool, idOf: FileDiff -> string)
    requires fd.hunks != [] && HasChanges(fd.hunks) && (inverting ==> CanInvert(fd))
    ensures var selected := Select(fd.hunks, Chosen(fd, fd.hunks, chosen, idOf), 0, inverting);
            Prepared(fd, Options(true, Some(chosen), inverting, joining), idOf) ==
            if selected == [] then EmptyPatch
            else Ok(SinglePatches(Turned(fd, inverting), TurnedHunks(selected, inverting), idOf))
  {
    var selected := Select(fd.hunks, Chosen(fd, fd.hunks, chosen, idOf), 0, inverting);
    assert Resolved(fd, true, idOf) == SinglePatches(fd, fd.hunks, idOf);
    FilterSelects(fd, fd.hunks, chosen, inverting, 0, idOf);
    if inverting {
      InvertSingles(fd, selected, idOf);
    }
  }

  /** However it is returned, a reading holds the chosen hunks in order, renumbered and turned. */
  lemma ReadingSelects(fd: FileDiff, chosen: set<string>, inverting: bool, joining: bool, idOf: FileDiff -> string,
                       r: Result<seq<Patch>>)
    requires fd.hunks != [] && HasChanges(fd.hunks) && (inverting ==> CanInvert(fd))
    requires IsReading(fd, Options(true, Some(chosen), inverting, joining), idOf, r)
    ensures var selected := Select(fd.hunks, Chosen(fd, fd.hunks, chosen, idOf), 0, inverting);
            && (r.EmptyPatch? <==> selected == [])
            && (r.Ok? ==> HunksOf(r.value) == TurnedHunks(selected, inverting))
            && (r.Ok? && joining ==>
                  r.value == [NewHunk(Turned(fd, inverting).(hunks := TurnedHunks(selected, inverting)), idOf)])
  {
    hide Prepared, Turned, TurnedHunks, SinglePatches, HunksOf, IsJoin, Select, Chosen, HasChanges, CanInvert;
    PreparedSingles(fd, chosen, inverting, joining, idOf);
    var selected := Select(fd.hunks, Chosen(fd, fd.hunks, chosen, idOf), 0, inverting);
    if selected != [] {
      var head, hs := Turned(fd, inverting), TurnedHunks(selected, inverting);
      HunksOfSingles(head, hs, idOf);
      if joining {
        JoinSingles(head, hs, r.value, idOf);
      }
    }
  }

  lemma JoinSingles(head: FileDiff, hs: seq<Hunk>, out: seq<Patch>, idOf: FileDiff -> string)
    requires hs != [] && IsJoin(SinglePatches(head, hs, idOf), out, idOf)
    ensures out == [NewHunk(head.(hunks := hs), idOf)] && HunksOf(out) == hs
  {
    var patches := SinglePatches(head, hs, idOf);
    HunksOfSingles(head, hs, idOf);
    hide SinglePatches, IsJoin, HunksOf;
    assert PartsOf(patches, head);
    JoinOne(patches, head, out, idOf);
    HunksOfOne(out[0]);
  }

  lemma HunksOfOne(patch: Patch)
    ensures HunksOf([patch]) == patch.diff.hunks
  {
    assert HunksOf([patch]) == HunksOf([patch][..0]) + patch.diff.hunks;
  }

  lemma {:induction false} SelectedChange(hs: seq<Hunk>, keep: seq<bool>, dropped: int, inverting: bool)
    requires |keep| == |hs| && !HasChanges(hs)
    ensures !HasChanges(Select(hs, keep, dropped, inverting))
  {
    if hs != [] {
      assert !Changes(LinesOf(hs[0].body));
      forall k | 0 <= k < |hs[1..]|
        ensures !Changes(LinesOf(hs[1..][k].body))
      {
        assert hs[1..][k] == hs[k + 1];
      }
      hide Changes, Int32, Growth;
      var d := if keep[0] then dropped else Int32(dropped + Int32(Growth(hs[0])));
      SelectedChange(hs[1..], keep[1..], d, inverting);
    }
  }

  lemma InvertedChange(hs: seq<Hunk>)
    requires !HasChanges(hs)
    ensures !HasChanges(InvertHunks(hs))
  {
    forall i | 0 <= i < |hs|
      ensures !Changes(LinesOf(InvertHunks(hs)[i].body))
    {
      InvertedAt(hs, i);
      LinesOfFlip(hs[i].body);
      assert !Changes(LinesOf(hs[i].body));
      forall j | 0 <= j < |LinesOf(hs[i].body)|
        ensures !Marked(FlipLine(LinesOf(hs[i].body)[j]))
      {
        assert !Marked(LinesOf(hs[i].body)[j]);
      }
    }
  }

  /** Undoing chosen hunks: read with an inverter, the patches of a diff from a to b take b to
      b with exactly these hunks undone, and nothing is returned only if that is b. It is a with
      exactly the other hunks applied if and only if no chosen hunk is marked. */
  lemma UndoChosenHunks(fd: FileDiff, chosen: set<string>, joining: bool, idOf: FileDiff -> string,
                        r: Result<seq<Patch>>, a: seq<string>, b: seq<string>)
    requires fd.hunks != [] && CanInvert(fd) && Patches(fd.hunks, a, b) && |a| + |b| < 0x8000_0000
    requires IsReading(fd, Options(true, Some(chosen), true, joining), idOf, r)
    ensures var keep := Chosen(fd, fd.hunks, chosen, idOf);
            var c := Undoing(fd.hunks, keep, a, b);
            && (if r.Ok? then Patches(HunksOf(r.value), b, c) else b == c)
            && (c == Partly(fd.hunks, keep, false, a, b) <==> !MarkChosen(fd.hunks, keep))
    ensures r.Ok? && joining ==> |r.value| == 1 && Names(r.value[0].diff) == Names(Inverted(fd))
  {
    var hs, keep := fd.hunks, Chosen(fd, fd.hunks, chosen, idOf);
    var c := Undoing(hs, keep, a, b);
    var undo := InvertHunks(Select(hs, keep, 0, true));
    UndoSelected(hs, keep, a, b);
    if HasChanges(hs) {
      ReadingSelects(fd, chosen, true, joining, idOf, r);
      hide PatchFrom, Partly, Undoing, HasChanges;
      if undo == [] {
        EmptyPatchChangesNothing(b, c);
      }
    } else {
      SelectedChange(hs, keep, 0, true);
      InvertedChange(Select(hs, keep, 0, true));
      NothingChanges(undo, b, 0, c, 0);
      assert b[0..] == b && c[0..] == c;
    }
  }

  /** Not joined, every patch has one hunk; applied one after the other, each at its new start,
      they fit and undo the chosen hunks. */
  lemma UndoOneByOne(fd: FileDiff, chosen: set<string>, idOf: FileDiff -> string, r: Result<seq<Patch>>,
                     a: seq<string>, b: seq<string>)
    requires fd.hunks != [] && CanInvert(fd) && Patches(fd.hunks, a, b) && |a| + |b| < 0x8000_0000
    requires IsReading(fd, Options(true, Some(chosen), true, false), idOf, r) && r.Ok?
    ensures var c := Undoing(fd.hunks, Chosen(fd, fd.hunks, chosen, idOf), a, b);
            && HunkByHunk(r.value) && Headed(r.value, Inverted(fd), idOf)
            && FitInTurn(HunksOf(r.value), b) && OneByOne(HunksOf(r.value), b) == c
  {
    hide Prepared, Undoing, PatchFrom, CanInvert, Inverted;
    UndoChosenHunks(fd, chosen, false, idOf, r, a, b);
    ReadOneByOne(fd, chosen, true, idOf, r);
    PatchOneByOne(HunksOf(r.value), b, Undoing(fd.hunks, Chosen(fd, fd.hunks, chosen, idOf), a, b));
  }

  /** Every patch has one hunk, and these are all hunks in order. */
  predicate HunkByHunk(patches: seq<Patch>)
  {
    && |HunksOf(patches)| == |patches|
    && forall i :: 0 <= i < |patches| ==> patches[i].diff.hunks == [HunksOf(patches)[i]]
  }

  /** Every patch has this header and is named after what is printed. */
  predicate Headed(patches: seq<Patch>, head: FileDiff, idOf: FileDiff -> string)
  {
    forall i :: 0 <= i < |patches| ==> patches[i] == NewHunk(head.(hunks := patches[i].diff.hunks), idOf)
  }

  lemma ReadOneByOne(fd: FileDiff, chosen: set<string>, inverting: bool, idOf: FileDiff -> string, r: Result<seq<Patch>>)
    requires fd.hunks != [] && (inverting ==> CanInvert(fd))
    requires IsReading(fd, Options(true, Some(chosen), inverting, false), idOf, r) && r.Ok?
    ensures HunkByHunk(r.value) && Headed(r.value, if inverting then Inverted(fd) else fd, idOf)
  {
    PreparedSingles(fd, chosen, inverting, false, idOf);
    var selected := Select(fd.hunks, Chosen(fd, fd.hunks, chosen, idOf), 0, inverting);
    var head, hs := Turned(fd, inverting), TurnedHunks(selected, inverting);
    hide Prepared, TurnedHunks, Select, Chosen, Inverted, HunkByHunk, Headed, HasChanges, SinglePatches;
    SinglesOneByOne(head, hs, idOf);
  }

  lemma SinglesOneByOne(head: FileDiff, hs: seq<Hunk>, idOf: FileDiff -> string)
    ensures HunkByHunk(SinglePatches(head, hs, idOf)) && Headed(SinglePatches(head, hs, idOf), head, idOf)
  {
    HunksOfSingles(head, hs, idOf);
  }

  lemma EmptyPatchChangesNothing(a: seq<string>, b: seq<string>)
    requires Patches([], a, b)
    ensures a == b
  {
    assert a[0..] == a && b[0..] == b;
  }

  /** Applying chosen hunks: the patches of a diff from a to b take a to a with exactly
      these hunks applied, and nothing is returned only if that is a. */
  lemma ApplyChosenHunks(fd: FileDiff, chosen: set<string>, joining: bool, idOf: FileDiff -> string,
                         r: Result<seq<Patch>>, a: seq<string>, b: seq<string>)
    requires fd.hunks != [] && Patches(fd.hunks, a, b) && |a| + |b| < 0x8000_0000
    requires IsReading(fd, Options(true, Some(chosen), false, joining), idOf, r)
    ensures var c := Partly(fd.hunks, Chosen(fd, fd.hunks, chosen, idOf), true, a, b);
            if r.Ok? then Patches(HunksOf(r.value), a, c) else a == c
    ensures r.Ok? && joining ==> |r.value| == 1 && Names(r.value[0].diff) == Names(fd)
  {
    var hs, keep := fd.hunks, Chosen(fd, fd.hunks, chosen, idOf);
    var c := Partly(hs, keep, true, a, b);
    var selected := Select(hs, keep, 0, false);
    ApplySelected(hs, keep, a, b);
    if HasChanges(hs) {
      ReadingSelects(fd, chosen, false, joining, idOf, r);
      hide PatchFrom, Partly, HasChanges;
      if selected == [] {
        EmptyPatchChangesNothing(a, c);
      }
    } else {
      SelectedChange(hs, keep, 0, false);
      NothingChanges(selected, a, 0, c, 0);
      assert a[0..] == a && c[0..] == c;
    }
  }

  /** Not joined and applied one after the other, each at its new start, the patches fit and apply the chosen hunks. */
  lemma ApplyOneByOne(fd: FileDiff, chosen: set<string>, idOf: FileDiff -> string, r: Result<seq<Patch>>,
                      a: seq<string>, b: seq<string>)
    requires fd.hunks != [] && Patches(fd.hunks, a, b) && |a| + |b| < 0x8000_0000
    requires IsReading(fd, Options(true, Some(chosen), false, false), idOf, r) && r.Ok?
    ensures var c := Partly(fd.hunks, Chosen(fd, fd.hunks, chosen, idOf), true, a, b);
            && HunkByHunk(r.value) && Headed(r.value, fd, idOf)
            && FitInTurn(HunksOf(r.value), a) && OneByOne(HunksOf(r.value), a) == c
  {
    hide Prepared, Partly, PatchFrom;
    ApplyChosenHunks(fd, chosen, false, idOf, r, a, b);
    ReadOneByOne(fd, chosen, false, idOf, r);
    PatchOneByOne(HunksOf(r.value), a, Partly(fd.hunks, Chosen(fd, fd.hunks, chosen, idOf), true, a, b));
  }

  /** Nothing is returned for a diff that changes nothing. A diff without hunks, or one that is not expanded, is
      read as one patch, which is the whole diff, and nothing is returned if that was not chosen. */
  lemma WholeReading(fd: FileDiff, options: Options, idOf: FileDiff -> string, r: Result<seq<Patch>>)
    requires fd.hunks == [] || !options.expanding || !HasChanges(fd.hunks)
    requires (options.inverting ==> CanInvert(fd)) && IsReading(fd, options, idOf, r)
    ensures var turned := if options.inverting then Inverted(fd) else fd;
            r == if (fd.hunks != [] && !HasChanges(fd.hunks))
                    || (options.hunksFilter.Some? && idOf(fd) !in options.hunksFilter.value)
                 then EmptyPatch else Ok([NewHunk(turned, idOf)])
  {
    PreparedWhole(fd, options, idOf);
    var turned := if options.inverting then Inverted(fd) else fd;
    var whole := NewHunk(turned, idOf);
    assert whole.diff == whole.diff.(hunks := whole.diff.hunks);
    hide Prepared, IsJoin, Inverted, HasChanges, CanInvert;
    if Prepared(fd, options, idOf).Ok? && options.joining {
      HunksOfOne(whole);
      JoinOne([whole], turned, r.value, idOf);
    }
  }

  lemma PreparedWhole(fd: FileDiff, options: Options, idOf: FileDiff -> string)
    requires fd.hunks == [] || !options.expanding || !HasChanges(fd.hunks)
    requires options.inverting ==> CanInvert(fd)
    ensures var turned := if options.inverting then Inverted(fd) else fd;
            Prepared(fd, options, idOf) ==
            if (fd.hunks != [] && !HasChanges(fd.hunks))
               || (options.hunksFilter.Some? && idOf(fd) !in options.hunksFilter.value)
            then EmptyPatch else Ok([NewHunk(turned, idOf)])
  {
    var h := NewHunk(fd, idOf);
    if options.hunksFilter.Some? {
      FilterOne(h, options.hunksFilter.value, options.inverting, idOf);
    }
    if options.inverting {
      PartsCanBeInverted([h], fd);
      hide FilterFrom, HasChanges, CanInvert, Inverted;
      assert InvertedAll([h], idOf) == [NewHunk(Inverted(fd), idOf)];
    }
    hide FilterFrom, HasChanges, CanInvert, Inverted;
  }

  lemma FilterOne(h: Patch, chosen: set<string>, inverting: bool, idOf: FileDiff -> string)
    ensures FilterFrom([h], chosen, inverting, 0, idOf) ==
            if h.id in chosen then Ok([h]) else if h.diff.hunks == [] then EmptyPatch else Ok([])
  {
    hide DroppedAdditions;
    assert [h][1..] == [] && [h] + [] == [h];
  }

  /** Without a filter, an expanded diff is returned whole when it is joined, and otherwise as
      one patch for every hunk, in order. */
  lemma ReadAll(fd: FileDiff, inverting: bool, joining: bool, idOf: FileDiff -> string, r: Result<seq<Patch>>)
    requires fd.hunks != [] && HasChanges(fd.hunks)
    requires (inverting ==> CanInvert(fd)) && IsReading(fd, Options(true, None, inverting, joining), idOf, r)
    ensures var turned := if inverting then Inverted(fd) else fd;
            && r.Ok?
            && if joining then r.value == [NewHunk(turned, idOf)]
               else |r.value| == |fd.hunks| && Headed(r.value, turned, idOf)
                    && forall i :: 0 <= i < |fd.hunks| ==>
                         r.value[i].diff.hunks == [if inverting then InvertHunk(fd.hunks[i]) else fd.hunks[i]]
  {
    var head := if inverting then Inverted(fd) else fd;
    PreparedAll(fd, inverting, joining, idOf);
    hide Prepared, HasChanges, IsJoin, SinglePatches, CanInvert, Inverted, InvertHunk, InvertHunks, Headed, HunkByHunk;
    if joining {
      JoinSingles(head, head.hunks, r.value, idOf);
    } else {
      SinglesOneByOne(head, head.hunks, idOf);
      HunksOfSingles(head, head.hunks, idOf);
      SinglesAre(head, idOf);
      forall i | 0 <= i < |fd.hunks|
        ensures head.hunks[i] == if inverting then InvertHunk(fd.hunks[i]) else fd.hunks[i]
      {
        TurnedAt(fd, inverting, i);
      }
    }
  }

  lemma SinglesAre(head: FileDiff, idOf: FileDiff -> string)
    ensures forall i :: 0 <= i < |head.hunks| ==> SinglePatches(head, head.hunks, idOf)[i].diff.hunks == [head.hunks[i]]
  {
  }

  lemma TurnedAt(fd: FileDiff, inverting: bool, i: nat)
    requires i < |fd.hunks| && (inverting ==> CanInvert(fd))
    ensures var head := if inverting then Inverted(fd) else fd;
            |head.hunks| == |fd.hunks| && head.hunks[i] == if inverting then InvertHunk(fd.hunks[i]) else fd.hunks[i]
  {
    InvertedAt(fd.hunks, i);
  }

  lemma PreparedAll(fd: FileDiff, inverting: bool, joining: bool, idOf: FileDiff -> string)
    requires fd.hunks != [] && HasChanges(fd.hunks) && (inverting ==> CanInvert(fd))
    ensures var head := if inverting then Inverted(fd) else fd;
            Prepared(fd, Options(true, None, inverting, joining), idOf) == Ok(SinglePatches(head, head.hunks, idOf))
            && |head.hunks| == |fd.hunks|
  {
    ExpandedSingles(fd, idOf);
    if inverting {
      InvertSingles(fd, fd.hunks, idOf);
    }
  }

  /** Without a filter, or with one that keeps every hunk, expanding and joining give back the diff. */
  lemma ExpandThenJoin(fd: FileDiff, hunksFilter: Option<set<string>>, idOf: FileDiff -> string, r: Result<seq<Patch>>)
    requires fd.hunks != [] && HasChanges(fd.hunks)
    requires forall i :: 0 <= i < |fd.hunks| && hunksFilter.Some? ==> idOf(fd.(hunks := [fd.hunks[i]])) in hunksFilter.value
    requires IsReading(fd, Options(true, hunksFilter, false, true), idOf, r)
    ensures r == Ok([NewHunk(fd, idOf)])
  {
    hide SinglePatches, Select, Chosen, IsJoin, HasChanges;
    if hunksFilter.Some? {
      var keep := Chosen(fd, fd.hunks, hunksFilter.value, idOf);
      SelectAll(fd.hunks, keep, false);
      ReadingSelects(fd, hunksFilter.value, false, true, idOf, r);
    } else {
      ExpandedSingles(fd, idOf);
      hide Resolved;
      JoinSingles(fd, fd.hunks, r.value, idOf);
    }
  }

  lemma ExpandedSingles(fd: FileDiff, idOf: FileDiff -> string)
    requires fd.hunks != []
    ensures Resolved(fd, true, idOf) == SinglePatches(fd, fd.hunks, idOf)
  {
  }
}
