/** The patch pipeline: expanding a file diff into single hunks, keeping the chosen ones,
    inverting them and joining them again. */
module Unidiff {
  import opened Wrappers
  import opened HunkBody
  import opened PatchAlgebra
  import opened DiffHeader

  /** A parsed file diff; one without hunks (a binary file, a pure rename) has []. */
  datatype FileDiff = FileDiff(origName: string, origTime: Option<int>, newName: string, newTime: Option<int>,
                               extended: seq<string>, hunks: seq<Hunk>)

  /** A printed file diff and the identifier computed from it. */
  datatype Patch = Patch(id: string, diff: FileDiff)

  datatype Result<T> = Ok(value: T) | EmptyPatch

  function NewHunk(diff: FileDiff, idOf: FileDiff -> string): Patch
  {
    Patch(idOf(diff), diff)
  }

  // ---------------------------------------------------------------- expanding

  function ExpandHunks(fd: FileDiff): seq<FileDiff>
  {
    if fd.hunks == [] then [fd] else Singles(fd, fd.hunks)
  }

  function Singles(fd: FileDiff, hs: seq<Hunk>): (r: seq<FileDiff>)
    ensures |r| == |hs|
    ensures forall i :: 0 <= i < |hs| ==> r[i] == fd.(hunks := [hs[i]])
  {
    if hs == [] then [] else [fd.(hunks := [hs[0]])] + Singles(fd, hs[1..])
  }

  function Printed(fds: seq<FileDiff>, idOf: FileDiff -> string): (r: seq<Patch>)
    ensures |r| == |fds|
    ensures forall i :: 0 <= i < |fds| ==> r[i] == NewHunk(fds[i], idOf)
  {
    if fds == [] then [] else [NewHunk(fds[0], idOf)] + Printed(fds[1..], idOf)
  }

  // ---------------------------------------------------------------- filtering

  function Renumbered(fd: FileDiff, dropped: int, inverting: bool): FileDiff
  {
    if fd.hunks == [] then fd else fd.(hunks := [Shift(fd.hunks[0], dropped, inverting)] + fd.hunks[1..])
  }

  function DroppedAdditions(fd: FileDiff, dropped: int): int
  {
    if fd.hunks == [] then dropped else Int32(dropped + Int32(Growth(fd.hunks[0])))
  }

  /** The result of a filter that has already produced these patches. */
  function After(done: seq<Patch>, rest: Result<seq<Patch>>): Result<seq<Patch>>
  {
    match rest
    case EmptyPatch => EmptyPatch
    case Ok(more) => Ok(done + more)
  }

  function FilterFrom(hunks: seq<Patch>, chosen: set<string>, inverting: bool, dropped: int, idOf: FileDiff -> string)
    : Result<seq<Patch>>
  {
    if hunks == [] then Ok([])
    else
      var h := hunks[0];
      if h.id !in chosen then
        if h.diff.hunks == [] then EmptyPatch
        else FilterFrom(hunks[1..], chosen, inverting, DroppedAdditions(h.diff, dropped), idOf)
      else
        var first := if dropped == 0 then h else NewHunk(Renumbered(h.diff, dropped, inverting), idOf);
        After([first], FilterFrom(hunks[1..], chosen, inverting, dropped, idOf))
  }

  lemma AfterNothing(rest: Result<seq<Patch>>)
    ensures After([], rest) == rest
  {
    if rest.Ok? {
      assert [] + rest.value == rest.value;
    }
  }

  /** Producing one more patch is part of what is done. */
  lemma AfterOneMore(done: seq<Patch>, first: Patch, rest: Result<seq<Patch>>)
    ensures After(done, After([first], rest)) == After(done + [first], rest)
  {
    if rest.Ok? {
      assert done + ([first] + rest.value) == done + [first] + rest.value;
    }
  }

  /** A patch without hunks that was not chosen. */
  predicate Unwanted(patch: Patch, chosen: set<string>)
  {
    patch.diff.hunks == [] && patch.id !in chosen
  }

  /** Filtering ends without a result exactly if some patch without hunks was not chosen. */
  lemma {:induction false} FilterEnds(hunks: seq<Patch>, chosen: set<string>, inverting: bool, dropped: int,
                                      idOf: FileDiff -> string)
    ensures FilterFrom(hunks, chosen, inverting, dropped, idOf).EmptyPatch? <==>
            exists i :: 0 <= i < |hunks| && Unwanted(hunks[i], chosen)
  {
    if hunks != [] {
      var d := if hunks[0].id in chosen then dropped else DroppedAdditions(hunks[0].diff, dropped);
      hide DroppedAdditions, Renumbered;
      FilterEnds(hunks[1..], chosen, inverting, d, idOf);
      assert forall i :: 0 <= i < |hunks[1..]| ==> hunks[1..][i] == hunks[i + 1];
      assert (exists i :: 0 <= i < |hunks| && Unwanted(hunks[i], chosen)) <==>
             (Unwanted(hunks[0], chosen) || exists i :: 0 <= i < |hunks[1..]| && Unwanted(hunks[1..][i], chosen));
    }
  }

  /** Where nothing is dropped nothing is renumbered. */
  lemma {:induction false} FilterKeepsAll(hunks: seq<Patch>, chosen: set<string>, inverting: bool, idOf: FileDiff -> string)
    requires forall i :: 0 <= i < |hunks| ==> hunks[i].id in chosen
    ensures FilterFrom(hunks, chosen, inverting, 0, idOf) == Ok(hunks)
  {
    if hunks != [] {
      FilterKeepsAll(hunks[1..], chosen, inverting, idOf);
      assert [hunks[0]] + hunks[1..] == hunks;
    }
  }

  method Filter(hunks: seq<Patch>, chosen: set<string>, inverting: bool, idOf: FileDiff -> string)
    returns (r: Result<seq<Patch>>)
    ensures r == FilterFrom(hunks, chosen, inverting, 0, idOf)
    ensures r.EmptyPatch? <==> exists i :: 0 <= i < |hunks| && Unwanted(hunks[i], chosen)
    ensures (forall i :: 0 <= i < |hunks| ==> hunks[i].id in chosen) ==> r == Ok(hunks)
  {
    FilterEnds(hunks, chosen, inverting, 0, idOf);
    if forall i :: 0 <= i < |hunks| ==> hunks[i].id in chosen {
      FilterKeepsAll(hunks, chosen, inverting, idOf);
    }
    var filteredHunks: seq<Patch> := [];
    var droppedAdditions := 0;
    var i := 0;
    assert hunks[0..] == hunks;
    AfterNothing(FilterFrom(hunks, chosen, inverting, 0, idOf));
    while i < |hunks|
      invariant i <= |hunks|
      invariant After(filteredHunks, FilterFrom(hunks[i..], chosen, inverting, droppedAdditions, idOf)) ==
                FilterFrom(hunks, chosen, inverting, 0, idOf)
    {
      var h := hunks[i];
      assert hunks[i..][0] == h && hunks[i..][1..] == hunks[i + 1..];
      i := i + 1;
      if h.diff.hunks == [] && h.id !in chosen {
        return EmptyPatch;
      }
      if h.id !in chosen {
        droppedAdditions := DroppedAdditions(h.diff, droppedAdditions);
        continue;
      }
      ghost var rest := FilterFrom(hunks[i..], chosen, inverting, droppedAdditions, idOf);
      if droppedAdditions == 0 {
        AfterOneMore(filteredHunks, h, rest);
        filteredHunks := filteredHunks + [h];
        continue;
      }
      AfterOneMore(filteredHunks, NewHunk(Renumbered(h.diff, droppedAdditions, inverting), idOf), rest);
      filteredHunks := filteredHunks + [NewHunk(Renumbered(h.diff, droppedAdditions, inverting), idOf)];
    }
    assert hunks[i..] == [] && filteredHunks + [] == filteredHunks;
    return Ok(filteredHunks);
  }

  // ---------------------------------------------------------------- inverting

  predicate CanInvert(fd: FileDiff)
  {
    Invertible(fd.origName, fd.newName, fd.extended)
  }

  function Inverted(fd: FileDiff): FileDiff
    requires CanInvert(fd)
  {
    FileDiff(CleanNameNewPrefix(fd.newName, "a/"), fd.newTime, CleanNameNewPrefix(fd.origName, "b/"), fd.origTime,
             InvertExtended(fd.origName, fd.newName, fd.extended), PatchAlgebra.InvertHunks(fd.hunks))
  }

  /** A hunk that goes the other way: the ranges have changed places, every line its sign, and no mark is left. */
  predicate Reverses(h: Hunk, o: Hunk)
  {
    && o.origStart == h.newStart && o.origLines == h.newLines && o.newStart == h.origStart && o.newLines == h.origLines
    && o.origNoNewlineAt == 0 && o.section == h.section && o.startPosition == h.startPosition && o.body == Flip(h.body)
  }

  /** Every hunk goes the other way, and the times have changed places. */
  predicate AllReversed(fd: FileDiff, out: FileDiff)
  {
    && out.origTime == fd.newTime && out.newTime == fd.origTime && |out.hunks| == |fd.hunks|
    && forall i :: 0 <= i < |fd.hunks| ==> Reverses(fd.hunks[i], out.hunks[i])
  }

  lemma {:induction false} InvertedAt(hs: seq<Hunk>, i: nat)
    requires i < |hs|
    ensures PatchAlgebra.InvertHunks(hs)[i] == InvertHunk(hs[i])
  {
    if i > 0 {
      InvertedAt(hs[1..], i - 1);
    }
  }

  lemma TurnsAround(fd: FileDiff)
    requires CanInvert(fd)
    ensures AllReversed(fd, Inverted(fd))
  {
    forall i | 0 <= i < |fd.hunks|
      ensures Reverses(fd.hunks[i], PatchAlgebra.InvertHunks(fd.hunks)[i])
    {
      InvertedAt(fd.hunks, i);
    }
  }

  method InvertDiff(fd: FileDiff) returns (out: FileDiff)
    requires CanInvert(fd)
    ensures out == Inverted(fd)
    ensures AllReversed(fd, out)
  {
    hide AllReversed;
    var invertedHunks: seq<Hunk> := [];
    for i := 0 to |fd.hunks|
      invariant invertedHunks + PatchAlgebra.InvertHunks(fd.hunks[i..]) == PatchAlgebra.InvertHunks(fd.hunks)
    {
      var h := fd.hunks[i];
      assert fd.hunks[i..][0] == h && fd.hunks[i..][1..] == fd.hunks[i + 1..];
      var invertedBody := InvertBody(h.body);
      var inv := Hunk(h.newStart, h.newLines, 0, h.origStart, h.origLines, h.section, h.startPosition, invertedBody);
      invertedHunks := invertedHunks + [inv];
    }
    out := FileDiff(CleanNameNewPrefix(fd.newName, "a/"), fd.newTime, CleanNameNewPrefix(fd.origName, "b/"), fd.origTime,
                    InvertExtended(fd.origName, fd.newName, fd.extended), invertedHunks);
    TurnsAround(fd);
  }

  predicate CanInvertAll(hunks: seq<Patch>)
  {
    forall i :: 0 <= i < |hunks| ==> CanInvert(hunks[i].diff)
  }

  function InvertedAll(hunks: seq<Patch>, idOf: FileDiff -> string): (r: seq<Patch>)
    requires CanInvertAll(hunks)
    ensures |r| == |hunks|
    ensures forall i :: 0 <= i < |hunks| ==> r[i] == NewHunk(Inverted(hunks[i].diff), idOf)
  {
    hide CanInvert, Inverted;
    if hunks == [] then [] else [NewHunk(Inverted(hunks[0].diff), idOf)] + InvertedAll(hunks[1..], idOf)
  }

  method InvertPatches(hunks: seq<Patch>, idOf: FileDiff -> string) returns (out: seq<Patch>)
    requires CanInvertAll(hunks)
    ensures out == InvertedAll(hunks, idOf)
  {
    out := [];
    for i := 0 to |hunks|
      invariant |out| == i && forall j :: 0 <= j < i ==> out[j] == NewHunk(Inverted(hunks[j].diff), idOf)
    {
      var inverted := InvertDiff(hunks[i].diff);
      out := out + [NewHunk(inverted, idOf)];
    }
  }

  /** A file diff as git writes it, with this header. */
  predicate CanonicalDiff(fd: FileDiff, h: Header)
  {
    Canonical(h) && fd.origName == OrigName(h) && fd.newName == NewName(h) && fd.extended == Extended(h)
  }

  lemma {:induction false} InvertHunksTwice(hs: seq<Hunk>)
    ensures PatchAlgebra.InvertHunks(PatchAlgebra.InvertHunks(hs)) == hs <==> Unmarked(hs)
  {
    if hs != [] {
      InvertHunksTwice(hs[1..]);
      InvertHunkTwice(hs[0]);
      assert PatchAlgebra.InvertHunks(hs)[1..] == PatchAlgebra.InvertHunks(hs[1..]);
      var twice := PatchAlgebra.InvertHunks(PatchAlgebra.InvertHunks(hs));
      assert twice[0] == InvertHunk(InvertHunk(hs[0]));
      assert twice[1..] == PatchAlgebra.InvertHunks(PatchAlgebra.InvertHunks(hs[1..]));
    }
  }

  lemma {:induction false} InvertedAreUnmarked(hs: seq<Hunk>)
    ensures Unmarked(PatchAlgebra.InvertHunks(hs))
  {
    if hs != [] {
      InvertedAreUnmarked(hs[1..]);
      assert PatchAlgebra.InvertHunks(hs)[1..] == PatchAlgebra.InvertHunks(hs[1..]);
    }
  }

  /** The inverse has the header of the opposite change, and no hunk of it is marked. */
  lemma InvertedIsCanonical(fd: FileDiff, h: Header)
    requires CanonicalDiff(fd, h)
    ensures CanInvert(fd) && CanonicalDiff(Inverted(fd), Opposite(h)) && Unmarked(Inverted(fd).hunks)
  {
    InvertNames(h);
    InvertHeader(h);
    InvertedAreUnmarked(fd.hunks);
  }

  /** Inverting a canonical file diff twice gives it back exactly if no hunk is marked. */
  lemma InvertTwice(fd: FileDiff, h: Header)
    requires CanonicalDiff(fd, h)
    ensures CanInvert(fd) && CanInvert(Inverted(fd)) && (Inverted(Inverted(fd)) == fd <==> Unmarked(fd.hunks))
  {
    InvertedIsCanonical(fd, h);
    InvertedIsCanonical(Inverted(fd), Opposite(h));
    OppositeTwice(h);
    InvertHunksTwice(fd.hunks);
  }

  // ---------------------------------------------------------------- joining

  function Names(fd: FileDiff): (string, string)
  {
    (fd.origName, fd.newName)
  }

  /** The file diffs with these names, in order. */
  function Group(hunks: seq<Patch>, names: (string, string)): (r: seq<FileDiff>)
    ensures forall i :: 0 <= i < |r| ==> Names(r[i]) == names
  {
    if hunks == [] then []
    else
      var fd := hunks[|hunks| - 1].diff;
      Group(hunks[..|hunks| - 1], names) + (if Names(fd) == names then [fd] else [])
  }

  function AllHunks(fds: seq<FileDiff>): seq<Hunk>
  {
    if fds == [] then [] else AllHunks(fds[..|fds| - 1]) + fds[|fds| - 1].hunks
  }

  /** The first file diff with the hunks of all of them. */
  function Joined(fds: seq<FileDiff>): FileDiff
    requires fds != []
  {
    fds[0].(hunks := AllHunks(fds))
  }

  lemma NothingGrouped(hunks: seq<Patch>)
    ensures forall np :: Group(hunks[..0], np) == []
  {
  }

  lemma GroupedMore(hunks: seq<Patch>, i: nat)
    requires i < |hunks|
    ensures forall np :: Group(hunks[..i + 1], np) ==
                         Group(hunks[..i], np) + if Names(hunks[i].diff) == np then [hunks[i].diff] else []
  {
    assert hunks[..i + 1][..i] == hunks[..i];
  }

  method GroupByName(hunks: seq<Patch>) returns (diffsByName: map<(string, string), seq<FileDiff>>)
    ensures forall np :: np in diffsByName ==> diffsByName[np] == Group(hunks, np) != []
    ensures forall h :: h in hunks ==> Names(h.diff) in diffsByName
  {
    hide Group, Names;
    diffsByName := map[];
    NothingGrouped(hunks);
    for i := 0 to |hunks|
      invariant forall np :: np in diffsByName ==> diffsByName[np] == Group(hunks[..i], np) != []
      invariant forall np :: np !in diffsByName ==> Group(hunks[..i], np) == []
      invariant forall j :: 0 <= j < i ==> Names(hunks[j].diff) in diffsByName
    {
      var fd := hunks[i].diff;
      var np := Names(fd);
      GroupedMore(hunks, i);
      if np in diffsByName {
        diffsByName := diffsByName[np := diffsByName[np] + [fd]];
      } else {
        diffsByName := diffsByName[np := [fd]];
      }
    }
    assert hunks[..|hunks|] == hunks;
  }

  method JoinGroup(fds: seq<FileDiff>) returns (joined: FileDiff)
    requires fds != []
    ensures joined == Joined(fds)
  {
    joined := fds[0];
    assert fds[..1] == [fds[0]];
    assert AllHunks([fds[0]]) == [] + fds[0].hunks == fds[0].hunks;
    for i := 1 to |fds|
      invariant joined == fds[0].(hunks := AllHunks(fds[..i]))
    {
      assert fds[..i + 1][..i] == fds[..i];
      joined := joined.(hunks := joined.hunks + fds[i].hunks);
    }
    assert fds[..|fds|] == fds;
  }

  /** The patch that joins the hunks of one pair of names. */
  ghost predicate IsJoinOf(hunks: seq<Patch>, out: Patch, idOf: FileDiff -> string)
  {
    var group := Group(hunks, Names(out.diff));
    group != [] && out == NewHunk(Joined(group), idOf)
  }

  /** Its header is that of the first patch with these names. */
  ghost predicate LedByFirst(hunks: seq<Patch>, out: Patch)
  {
    exists k :: 0 <= k < |hunks| && hunks[k].diff.(hunks := out.diff.hunks) == out.diff && FirstNamed(hunks, k)
  }

  predicate FirstNamed(hunks: seq<Patch>, k: nat)
    requires k < |hunks|
  {
    forall j :: 0 <= j < k ==> Names(hunks[j].diff) != Names(hunks[k].diff)
  }

  lemma {:induction false} GroupStarts(hunks: seq<Patch>, np: (string, string))
    ensures var group := Group(hunks, np);
            if group == [] then forall j :: 0 <= j < |hunks| ==> Names(hunks[j].diff) != np
            else exists k :: 0 <= k < |hunks| && hunks[k].diff == group[0] && FirstNamed(hunks, k)
    decreases |hunks|
  {
    if hunks != [] {
      var n := |hunks| - 1;
      GroupStarts(hunks[..n], np);
      var before, group := Group(hunks[..n], np), Group(hunks, np);
      if before != [] {
        var k :| 0 <= k < n && hunks[..n][k].diff == before[0] && FirstNamed(hunks[..n], k);
        assert hunks[k].diff == group[0];
        forall j | 0 <= j < k
          ensures Names(hunks[j].diff) != Names(hunks[k].diff)
        {
          assert hunks[..n][j] == hunks[j];
        }
      } else {
        forall j | 0 <= j < n
          ensures Names(hunks[j].diff) != np
        {
          assert hunks[..n][j] == hunks[j];
        }
        if group != [] {
          assert hunks[n].diff == group[0] && FirstNamed(hunks, n);
        }
      }
    }
  }

  lemma JoinIsLed(hunks: seq<Patch>, out: Patch, idOf: FileDiff -> string)
    requires IsJoinOf(hunks, out, idOf)
    ensures LedByFirst(hunks, out)
  {
    GroupStarts(hunks, Names(out.diff));
    var group := Group(hunks, Names(out.diff));
    var k :| 0 <= k < |hunks| && hunks[k].diff == group[0] && FirstNamed(hunks, k);
    assert hunks[k].diff.(hunks := out.diff.hunks) == out.diff;
  }

  /** One patch for every pair of names, each joining the hunks with these names in order. */
  ghost predicate IsJoin(hunks: seq<Patch>, out: seq<Patch>, idOf: FileDiff -> string)
  {
    && (forall i, j :: 0 <= i < j < |out| ==> Names(out[i].diff) != Names(out[j].diff))
    && (forall i :: 0 <= i < |out| ==> IsJoinOf(hunks, out[i], idOf))
    && (forall h :: h in hunks ==> exists i :: 0 <= i < |out| && Names(out[i].diff) == Names(h.diff))
  }

  /** Groups by name and joins every group; the groups come out in no particular order. */
  method JoinHunks(hunks: seq<Patch>, idOf: FileDiff -> string) returns (out: seq<Patch>)
    ensures IsJoin(hunks, out, idOf)
    ensures forall i :: 0 <= i < |out| ==> LedByFirst(hunks, out[i])
  {
    hide Names, Group, Joined, IsJoinOf, LedByFirst;
    var diffsByName := GroupByName(hunks);
    out := [];
    ghost var done: seq<(string, string)> := [];
    var names := diffsByName.Keys;
    while names != {}
      invariant names <= diffsByName.Keys && |done| == |out|
      invariant forall i :: 0 <= i < |done| ==> done[i] == Names(out[i].diff) && done[i] !in names
      invariant forall i, j :: 0 <= i < j < |done| ==> done[i] != done[j]
      invariant forall i :: 0 <= i < |out| ==> IsJoinOf(hunks, out[i], idOf)
      invariant forall np :: np in diffsByName && np !in names ==> np in done
      decreases names
    {
      var np :| np in names;
      names := names - {np};
      var joined := JoinGroup(diffsByName[np]);
      JoinedGroup(hunks, np, idOf);
      out := out + [NewHunk(joined, idOf)];
      done := done + [np];
    }
    forall h | h in hunks
      ensures exists i :: 0 <= i < |out| && Names(out[i].diff) == Names(h.diff)
    {
      var i :| 0 <= i < |done| && done[i] == Names(h.diff);
      assert Names(out[i].diff) == Names(h.diff);
    }
    forall i | 0 <= i < |out|
      ensures LedByFirst(hunks, out[i])
    {
      JoinIsLed(hunks, out[i], idOf);
    }
  }

  lemma JoinedGroup(hunks: seq<Patch>, np: (string, string), idOf: FileDiff -> string)
    requires Group(hunks, np) != []
    ensures var p := NewHunk(Joined(Group(hunks, np)), idOf);
            Names(p.diff) == np && IsJoinOf(hunks, p, idOf)
  {
  }
}
