/** The line differ: from two texts to the list of kept, added and removed parts. */
module LineDiff {
  import opened Lines
  import opened EditGraph
  import opened EditScript
  import opened LineDiffSearch
  import opened ScriptOrder

  /** What a component tells its reader. */
  datatype Part = Part(count: nat, kind: Kind, value: string)

  ghost function PartOf(c: Component): Part
    reads c
  {
    Part(c.count, c.Run().kind, c.value)
  }

  ghost function PartsOf(components: seq<Component>): (parts: seq<Part>)
    reads components
    ensures |parts| == |components|
    ensures forall i :: 0 <= i < |parts| ==> parts[i] == PartOf(components[i])
  {
    if components == [] then []
    else PartsOf(components[..|components| - 1]) + [PartOf(components[|components| - 1])]
  }

  /** The text of all parts that were not removed. */
  function NewText(parts: seq<Part>): string
  {
    if parts == [] then ""
    else NewText(parts[..|parts| - 1]) + if parts[|parts| - 1].kind.Removed? then "" else parts[|parts| - 1].value
  }

  /** The text of all parts that were not added. */
  function OldText(parts: seq<Part>): string
  {
    if parts == [] then ""
    else OldText(parts[..|parts| - 1]) + if parts[|parts| - 1].kind.Added? then "" else parts[|parts| - 1].value
  }

  /** How many lines are in parts that were added or removed. */
  function ChangedLines(parts: seq<Part>): nat
  {
    if parts == [] then 0
    else ChangedLines(parts[..|parts| - 1]) + if parts[|parts| - 1].kind.Same? then 0 else parts[|parts| - 1].count
  }

  /** The runs with the text each of them stands for. */
  ghost function Values(runs: seq<Run>, xs: seq<string>, ys: seq<string>): (parts: seq<Part>)
    requires Script(runs, xs, ys)
    ensures |parts| == |runs|
  {
    if runs == [] then []
    else
      var init, last := runs[..|runs| - 1], runs[|runs| - 1];
      Values(init, xs, ys) + [PartBuilt(last, NewEnd(init), OldEnd(init), xs, ys)]
  }

  /** The text of a run that starts where a new and b old tokens are consumed. */
  ghost function RunText(run: Run, a: nat, b: nat, xs: seq<string>, ys: seq<string>): string
    requires Fits(run, a, b, xs, ys)
  {
    if run.kind.Removed? then Join(ys[b..b + run.count]) else Join(xs[a..a + run.count])
  }

  ghost function PartBuilt(run: Run, a: nat, b: nat, xs: seq<string>, ys: seq<string>): Part
    requires Fits(run, a, b, xs, ys)
  {
    Part(run.count, run.kind, RunText(run, a, b, xs, ys))
  }

  /** The parts, with every removed part moved before an added part that it directly follows. */
  function RemovesFirst(parts: seq<Part>): (r: seq<Part>)
    ensures |r| == |parts|
  {
    if parts == [] then []
    else Place(RemovesFirst(parts[..|parts| - 1]), parts[|parts| - 1])
  }

  function Place(parts: seq<Part>, part: Part): (r: seq<Part>)
    ensures |r| == |parts| + 1
  {
    var n := |parts|;
    if part.kind.Removed? && n > 0 && parts[n - 1].kind.Added? then parts[..n - 1] + [part, parts[n - 1]]
    else parts + [part]
  }

  /** Neighbouring parts differ in kind, and no added part is directly before a removed
      one: between two kept parts there is at most one removed part, then at most one added. */
  ghost predicate InOrder(parts: seq<Part>)
  {
    forall i :: 0 <= i < |parts| - 1 ==>
      parts[i].kind != parts[i + 1].kind && !(parts[i].kind.Added? && parts[i + 1].kind.Removed?)
  }

  /** Placing the next part of a tidy script keeps the order when at most one part was
      added since the last kept one. */
  lemma PlaceKeepsOrder(parts: seq<Part>, part: Part)
    requires InOrder(parts)
    requires var n := |parts|;
             && (n >= 1 ==> parts[n - 1].kind != part.kind && !(parts[n - 1].kind.Removed? && part.kind.Added?))
             && (n >= 2 && parts[n - 1].kind.Added? && part.kind.Removed? ==> parts[n - 2].kind.Same?)
    ensures InOrder(Place(parts, part))
  {
  }

  ghost predicate SameKinds(parts: seq<Part>, runs: seq<Run>)
  {
    |parts| == |runs| && forall i :: 0 <= i < |runs| ==> parts[i].kind == runs[i].kind
  }

  /** How the parts of these runs end once they are in order. */
  ghost predicate EndsLike(parts: seq<Part>, runs: seq<Run>)
  {
    var n := |runs|;
    && |parts| == n
    && (n >= 1 && !runs[n - 1].kind.Removed? ==> parts[n - 1].kind == runs[n - 1].kind)
    && (n >= 2 && runs[n - 1].kind.Added? ==> parts[n - 2].kind.Same?)
    && (n >= 1 && runs[n - 1].kind.Removed? ==>
          parts[n - 1].kind == if n >= 2 && runs[n - 2].kind.Added? then Added else Removed)
  }

  /** One swap per removed part is enough to put the parts of a tidy script in order. */
  lemma {:induction false} RemovesComeFirst(parts: seq<Part>, runs: seq<Run>)
    requires SameKinds(parts, runs) && Tidy(runs)
    ensures InOrder(RemovesFirst(parts)) && EndsLike(RemovesFirst(parts), runs)
  {
    if runs != [] {
      hide InOrder;
      var init, last := parts[..|parts| - 1], parts[|parts| - 1];
      RemovesComeFirst(init, runs[..|runs| - 1]);
      NextEndsLike(RemovesFirst(init), last, runs);
    }
  }

  lemma NextEndsLike(parts: seq<Part>, part: Part, runs: seq<Run>)
    requires runs != [] && Tidy(runs) && part.kind == runs[|runs| - 1].kind
    requires InOrder(parts) && EndsLike(parts, runs[..|runs| - 1])
    ensures InOrder(Place(parts, part)) && EndsLike(Place(parts, part), runs)
  {
    hide InOrder;
    var n := |parts|;
    if n >= 1 {
      assert runs[..n][n - 1] == runs[n - 1];
    }
    PlaceKeepsOrder(parts, part);
  }

  lemma {:induction false} ValuesHaveKinds(runs: seq<Run>, xs: seq<string>, ys: seq<string>)
    requires Script(runs, xs, ys)
    ensures SameKinds(Values(runs, xs, ys), runs)
  {
    hide RunText;
    if runs != [] {
      ValuesHaveKinds(runs[..|runs| - 1], xs, ys);
    }
  }

  lemma TextSnoc(parts: seq<Part>, part: Part)
    ensures NewText(parts + [part]) == NewText(parts) + if part.kind.Removed? then "" else part.value
    ensures OldText(parts + [part]) == OldText(parts) + if part.kind.Added? then "" else part.value
    ensures ChangedLines(parts + [part]) == ChangedLines(parts) + if part.kind.Same? then 0 else part.count
  {
    assert (parts + [part])[..|parts|] == parts;
  }

  lemma PlaceKeepsTexts(parts: seq<Part>, part: Part)
    ensures NewText(Place(parts, part)) == NewText(parts + [part])
    ensures OldText(Place(parts, part)) == OldText(parts + [part])
    ensures ChangedLines(Place(parts, part)) == ChangedLines(parts + [part])
  {
    hide NewText, OldText, ChangedLines;
    TextSnoc(parts, part);
    var n := |parts|;
    if part.kind.Removed? && n > 0 && parts[n - 1].kind.Added? {
      var init := parts[..n - 1];
      TextSnoc(init, part);
      TextSnoc(init + [part], parts[n - 1]);
      TextSnoc(init, parts[n - 1]);
      assert parts == init + [parts[n - 1]];
      assert init + [part] + [parts[n - 1]] == Place(parts, part);
    }
  }

  /** Reordering changes neither text nor the number of changed lines. */
  lemma {:induction false} RemovesFirstKeepsTexts(parts: seq<Part>)
    ensures NewText(RemovesFirst(parts)) == NewText(parts)
    ensures OldText(RemovesFirst(parts)) == OldText(parts)
    ensures ChangedLines(RemovesFirst(parts)) == ChangedLines(parts)
  {
    if parts != [] {
      var init, last := parts[..|parts| - 1], parts[|parts| - 1];
      RemovesFirstKeepsTexts(init);
      PlaceKeepsTexts(RemovesFirst(init), last);
      TextSnoc(RemovesFirst(init), last);
    }
  }

  lemma RunSpellsTokens(run: Run, a: nat, b: nat, xs: seq<string>, ys: seq<string>)
    requires Fits(run, a, b, xs, ys) && a <= |xs| && b <= |ys|
    ensures !run.kind.Removed? ==> Join(xs[..a + run.count]) == Join(xs[..a]) + RunText(run, a, b, xs, ys)
    ensures !run.kind.Added? ==> Join(ys[..b + run.count]) == Join(ys[..b]) + RunText(run, a, b, xs, ys)
  {
    if !run.kind.Removed? {
      JoinExtend(xs, a, a + run.count);
    }
    if !run.kind.Added? {
      JoinExtend(ys, b, b + run.count);
    }
    if run.kind.Same? {
      assert xs[a..a + run.count] == ys[b..b + run.count];
    }
  }

  /** The parts of a script spell the tokens it has covered on both sides. */
  lemma {:induction false} ValuesSpellTokens(runs: seq<Run>, xs: seq<string>, ys: seq<string>)
    requires Script(runs, xs, ys)
    ensures NewText(Values(runs, xs, ys)) == Join(xs[..NewEnd(runs)])
    ensures OldText(Values(runs, xs, ys)) == Join(ys[..OldEnd(runs)])
    ensures ChangedLines(Values(runs, xs, ys)) == Edits(runs)
  {
    hide Join, RunText, Fits, NewText, OldText, ChangedLines;
    if runs == [] {
      EmptyTexts(xs, ys);
    } else {
      var init, last := runs[..|runs| - 1], runs[|runs| - 1];
      ValuesSpellTokens(init, xs, ys);
      TextSnoc(Values(init, xs, ys), PartBuilt(last, NewEnd(init), OldEnd(init), xs, ys));
      RunSpellsTokens(last, NewEnd(init), OldEnd(init), xs, ys);
    }
  }

  /** Every part's count is the number of lines in its text. */
  ghost predicate CountsLines(parts: seq<Part>)
  {
    forall i :: 0 <= i < |parts| ==> |LinesOf(parts[i].value)| == parts[i].count
  }

  lemma {:induction false} PartsCountLines(runs: seq<Run>, xs: seq<string>, ys: seq<string>)
    requires Script(runs, xs, ys) && AreLines(xs) && AreLines(ys)
    ensures CountsLines(RemovesFirst(Values(runs, xs, ys)))
  {
    if runs != [] {
      var init, last := runs[..|runs| - 1], runs[|runs| - 1];
      PartsCountLines(init, xs, ys);
      RunCountsLines(last, NewEnd(init), OldEnd(init), xs, ys);
      var parts := Values(runs, xs, ys);
      assert parts[..|parts| - 1] == Values(init, xs, ys);
    }
  }

  lemma RunCountsLines(run: Run, a: nat, b: nat, xs: seq<string>, ys: seq<string>)
    requires Fits(run, a, b, xs, ys) && AreLines(xs) && AreLines(ys)
    ensures |LinesOf(RunText(run, a, b, xs, ys))| == run.count
  {
    hide LinesOf, Join, AreLines, Match;
    if run.kind.Removed? {
      SliceCountsLines(ys, b, b + run.count);
    } else {
      SliceCountsLines(xs, a, a + run.count);
    }
  }

  lemma SliceCountsLines(ts: seq<string>, i: nat, j: nat)
    requires AreLines(ts) && i <= j <= |ts|
    ensures |LinesOf(Join(ts[i..j]))| == j - i
  {
    hide LinesOf, Join, IsLine;
    LinesUnique(ts[i..j]);
  }

  ghost predicate NoneIsEmpty(parts: seq<Part>)
  {
    forall i :: 0 <= i < |parts| ==> parts[i].value != ""
  }

  /** No part of a script is without text. */
  lemma {:induction false} NoPartIsEmpty(runs: seq<Run>, xs: seq<string>, ys: seq<string>)
    requires Script(runs, xs, ys) && NoneEmpty(xs) && NoneEmpty(ys)
    ensures NoneIsEmpty(RemovesFirst(Values(runs, xs, ys)))
  {
    if runs != [] {
      hide NoneEmpty, NoneIsEmpty, Fits, RunText, Place, NewEnd, OldEnd;
      var init, last := runs[..|runs| - 1], runs[|runs| - 1];
      NoPartIsEmpty(init, xs, ys);
      RunTextIsNotEmpty(last, NewEnd(init), OldEnd(init), xs, ys);
      var parts := Values(runs, xs, ys);
      assert parts[..|parts| - 1] == Values(init, xs, ys);
      PlaceKeepsNonEmpty(RemovesFirst(Values(init, xs, ys)), parts[|parts| - 1]);
    }
  }

  lemma PlaceKeepsNonEmpty(parts: seq<Part>, part: Part)
    requires NoneIsEmpty(parts) && part.value != ""
    ensures NoneIsEmpty(Place(parts, part))
  {
  }

  lemma RunTextIsNotEmpty(run: Run, a: nat, b: nat, xs: seq<string>, ys: seq<string>)
    requires Fits(run, a, b, xs, ys) && NoneEmpty(xs) && NoneEmpty(ys)
    ensures RunText(run, a, b, xs, ys) != ""
  {
    JoinOfLinesIsNotEmpty(if run.kind.Removed? then ys[b..b + run.count] else xs[a..a + run.count]);
  }

  lemma EmptyTexts(xs: seq<string>, ys: seq<string>)
    ensures NewText([]) == Join(xs[..0]) && OldText([]) == Join(ys[..0]) && ChangedLines([]) == 0
  {
  }

  lemma {:induction false} ScriptPrefix(runs: seq<Run>, i: nat, xs: seq<string>, ys: seq<string>)
    requires Script(runs, xs, ys) && i <= |runs|
    ensures Script(runs[..i], xs, ys)
  {
    if i < |runs| {
      ScriptPrefix(runs[..|runs| - 1], i, xs, ys);
      assert runs[..|runs| - 1][..i] == runs[..i];
    } else {
      assert runs[..i] == runs;
    }
  }

  /** One run further: the next part, where it starts, and where the cursors stand after it. */
  lemma ValuesNext(runs: seq<Run>, i: nat, xs: seq<string>, ys: seq<string>)
    requires Script(runs, xs, ys) && i < |runs|
    ensures Script(runs[..i], xs, ys) && Script(runs[..i + 1], xs, ys)
    ensures Fits(runs[i], NewEnd(runs[..i]), OldEnd(runs[..i]), xs, ys)
    ensures Values(runs[..i + 1], xs, ys) ==
            Values(runs[..i], xs, ys) + [PartBuilt(runs[i], NewEnd(runs[..i]), OldEnd(runs[..i]), xs, ys)]
    ensures NewEnd(runs[..i + 1]) == NewEnd(runs[..i]) + if runs[i].kind.Removed? then 0 else runs[i].count
    ensures OldEnd(runs[..i + 1]) == OldEnd(runs[..i]) + if runs[i].kind.Added? then 0 else runs[i].count
  {
    ScriptPrefix(runs, i, xs, ys);
    ScriptPrefix(runs, i + 1, xs, ys);
    assert runs[..i + 1][..i] == runs[..i];
  }

  lemma RemovesFirstNext(runs: seq<Run>, i: nat, xs: seq<string>, ys: seq<string>)
    requires i < |runs| && Script(runs[..i], xs, ys) && Script(runs[..i + 1], xs, ys)
    requires Fits(runs[i], NewEnd(runs[..i]), OldEnd(runs[..i]), xs, ys)
    requires Values(runs[..i + 1], xs, ys) ==
             Values(runs[..i], xs, ys) + [PartBuilt(runs[i], NewEnd(runs[..i]), OldEnd(runs[..i]), xs, ys)]
    ensures RemovesFirst(Values(runs[..i + 1], xs, ys)) ==
            Place(RemovesFirst(Values(runs[..i], xs, ys)),
                  PartBuilt(runs[i], NewEnd(runs[..i]), OldEnd(runs[..i]), xs, ys))
  {
    var next := Values(runs[..i + 1], xs, ys);
    assert next[..|next| - 1] == Values(runs[..i], xs, ys);
  }

  lemma NothingBuilt(xs: seq<string>, ys: seq<string>)
    ensures Script<string>([], xs, ys) && NewEnd([]) == 0 && OldEnd([]) == 0
    ensures RemovesFirst(Values([], xs, ys)) == []
  {
  }

  /** The first components show these parts; the others are still those of the search. */
  ghost predicate Built(components: seq<Component>, original: seq<Component>, done: seq<Part>)
    reads components
  {
    && |components| == |original| && |done| <= |components|
    && (forall i :: 0 <= i < |done| ==> PartOf(components[i]) == done[i])
    && (forall i :: |done| <= i < |components| ==> components[i] == original[i])
    && (forall i :: 0 <= i < |components| ==> !(components[i].added && components[i].removed))
    && (forall i, j :: 0 <= i < j < |components| ==> components[i] != components[j])
  }

  /** Fills in the text of one component and moves the cursors past it. */
  method FillValue(component: Component, newTokens: seq<string>, oldTokens: seq<string>, newPos: nat, oldPos: nat)
    returns (newNext: nat, oldNext: nat)
    requires !(component.added && component.removed)
    requires Fits(component.Run(), newPos, oldPos, newTokens, oldTokens)
    modifies component`value
    ensures PartOf(component) == PartBuilt(component.Run(), newPos, oldPos, newTokens, oldTokens)
    ensures newNext == newPos + if component.removed then 0 else component.count
    ensures oldNext == oldPos + if component.added then 0 else component.count
  {
    newNext, oldNext := newPos, oldPos;
    if !component.removed {
      component.value := Join(newTokens[newPos..newPos + component.count]);
      newNext := newPos + component.count;
      if !component.added {
        oldNext := oldPos + component.count;
      }
    } else {
      component.value := Join(oldTokens[oldPos..oldPos + component.count]);
      oldNext := oldPos + component.count;
    }
  }

  /** Swaps a removed component with an added one right before it. */
  method PlaceComponent(path: Path, pos: nat, ghost original: seq<Component>, ghost done: seq<Part>)
    requires |done| == pos < |path.components| && Built(path.components, original, done)
    modifies path`components
    ensures Built(path.components, original, Place(done, old(PartOf(path.components[pos]))))
  {
    if path.components[pos].removed && pos > 0 && path.components[pos - 1].added {
      var tmp := path.components[pos - 1];
      path.components := path.components[pos - 1 := path.components[pos]][pos := tmp];
    }
  }

  /** Builds the component at pos on top of the parts built so far. */
  method BuildComponent(path: Path, pos: nat, newTokens: seq<string>, oldTokens: seq<string>, newPos: nat, oldPos: nat,
                        ghost original: seq<Component>, ghost done: seq<Part>)
    returns (newNext: nat, oldNext: nat)
    requires |done| == pos < |original| && Built(path.components, original, done)
    requires Fits(original[pos].Run(), newPos, oldPos, newTokens, oldTokens)
    modifies path`components, original[pos]
    ensures Built(path.components, original, Place(done, PartBuilt(original[pos].Run(), newPos, oldPos, newTokens, oldTokens)))
    ensures newNext == newPos + if original[pos].removed then 0 else original[pos].count
    ensures oldNext == oldPos + if original[pos].added then 0 else original[pos].count
  {
    hide RunText, Fits, Place;
    newNext, oldNext := FillValue(path.components[pos], newTokens, oldTokens, newPos, oldPos);
    PlaceComponent(path, pos, original, done);
  }

  /** Fills in the text of every component and puts removals before additions. */
  method BuildValues(path: Path, newTokens: seq<string>, oldTokens: seq<string>, ghost runs: seq<Run>,
                     ghost records: set<Component>)
    requires path.Holds(runs) && Script(runs, newTokens, oldTokens) && Within(path.components, records)
    requires NoneEmpty(newTokens) && NoneEmpty(oldTokens)
    modifies path`components, records
    ensures PartsOf(path.components) == RemovesFirst(Values(runs, newTokens, oldTokens))
  {
    hide NewEnd, OldEnd, Script, PartBuilt, Fits, Place, Values, RemovesFirst;
    ghost var original := path.components;
    var componentPos := 0;
    var componentLen := |path.components|;
    var newPos, oldPos := 0, 0;
    NothingBuilt(newTokens, oldTokens);
    assert runs[..0] == [];
    while componentPos < componentLen
      invariant componentPos <= componentLen == |runs|
      invariant Script(runs[..componentPos], newTokens, oldTokens)
      invariant newPos == NewEnd(runs[..componentPos]) && oldPos == OldEnd(runs[..componentPos])
      invariant Built(path.components, original, RemovesFirst(Values(runs[..componentPos], newTokens, oldTokens)))
    {
      ValuesNext(runs, componentPos, newTokens, oldTokens);
      RemovesFirstNext(runs, componentPos, newTokens, oldTokens);
      assert original[componentPos].Run() == runs[componentPos];
      newPos, oldPos := BuildComponent(path, componentPos, newTokens, oldTokens, newPos, oldPos, original,
                                       RemovesFirst(Values(runs[..componentPos], newTokens, oldTokens)));
      componentPos := componentPos + 1;
    }
    assert runs[..componentLen] == runs;
    NoPartIsEmpty(runs, newTokens, oldTokens);
    if componentLen > 1 {
      // A last part without text would be merged away; no token is empty, so there is none.
      var lastComponent := path.components[componentLen - 1];
      assert PartOf(lastComponent) == RemovesFirst(Values(runs, newTokens, oldTokens))[componentLen - 1];
      if (lastComponent.added || lastComponent.removed) && lastComponent.value == "" {
        assert false;
      }
    }
  }

  /** Everything a reader of the result relies on. */
  ghost predicate IsDiff(parts: seq<Part>, oldString: string, newString: string)
  {
    && NewText(parts) == newString
    && OldText(parts) == oldString
    && CountsLines(parts)
    && InOrder(parts)
    && (oldString != "" || newString != "" ==> NoneIsEmpty(parts))
    && ChangedLines(parts) == Distance(LinesOf(newString), LinesOf(oldString))
  }

  lemma LinesAreNotEmpty(ts: seq<string>)
    requires AreLines(ts)
    ensures NoneEmpty(ts)
  {
  }

  /** A tidy shortest script between the lines of two texts yields their diff. */
  lemma ShortestScriptIsDiff(runs: seq<Run>, oldString: string, newString: string)
    requires Shortest(runs, LinesOf(newString), LinesOf(oldString)) && Tidy(runs)
    ensures IsDiff(RemovesFirst(Values(runs, LinesOf(newString), LinesOf(oldString))), oldString, newString)
  {
    hide LinesOf, Join, Script, NewEnd, OldEnd, Edits, Distance, Values, RemovesFirst, NewText, OldText, ChangedLines;
    hide CountsLines, InOrder, NoneIsEmpty, Tidy, AreLines, NoneEmpty;
    var xs, ys := LinesOf(newString), LinesOf(oldString);
    LinesRoundTrip(newString);
    LinesRoundTrip(oldString);
    ValuesHaveKinds(runs, xs, ys);
    RemovesComeFirst(Values(runs, xs, ys), runs);
    LinesAreNotEmpty(xs);
    LinesAreNotEmpty(ys);
    NoPartIsEmpty(runs, xs, ys);
    ValuesSpellTokens(runs, xs, ys);
    PartsCountLines(runs, xs, ys);
    RemovesFirstKeepsTexts(Values(runs, xs, ys));
    assert xs[..|xs|] == xs && ys[..|ys|] == ys;
  }

  method TokensOf(text: string) returns (tokens: seq<string>)
    ensures tokens == LinesOf(text) && NoneEmpty(tokens)
  {
    var lines := Tokenize(text);
    LinesRoundTrip(text);
    NonEmptyKeepsLines(lines);
    tokens := RemoveEmpty(lines);
  }

  /** Two equal texts: one component that keeps all their lines. */
  method Identity(newTokens: seq<string>, ghost oldString: string, ghost newString: string, ghost runs: seq<Run>)
    returns (component: Component)
    requires newTokens == LinesOf(newString)
    requires Shortest(runs, newTokens, LinesOf(oldString)) && Edits(runs) == 0
    ensures IsDiff(PartsOf([component]), oldString, newString)
  {
    hide Join, LinesOf, NewText, OldText, ChangedLines, IsDiff, Shortest, Edits;
    component := new Component(|newTokens|, false, false);
    component.value := Join(newTokens);
    IdentityIsDiff(runs, oldString, newString);
    assert PartsOf([component]) == [Part(|newTokens|, Same, Join(newTokens))];
  }

  lemma IdentityIsDiff(runs: seq<Run>, oldString: string, newString: string)
    requires Shortest(runs, LinesOf(newString), LinesOf(oldString)) && Edits(runs) == 0
    ensures IsDiff([Part(|LinesOf(newString)|, Same, Join(LinesOf(newString)))], oldString, newString)
  {
    hide Join, LinesOf, Script, NewEnd, OldEnd, Edits, Distance;
    ScriptWithoutEdits(runs, LinesOf(newString), LinesOf(oldString));
    assert LinesOf(newString) == LinesOf(oldString);
    LinesRoundTrip(newString);
    LinesRoundTrip(oldString);
    LinesUnique(LinesOf(newString));
    TextSnoc([], Part(|LinesOf(newString)|, Same, Join(LinesOf(newString))));
    var part := Part(|LinesOf(newString)|, Same, Join(LinesOf(newString)));
    assert [] + [part] == [part];
  }

  method Diff(oldString: string, newString: string) returns (components: seq<Component>)
    ensures IsDiff(PartsOf(components), oldString, newString)
  {
    hide LinesOf, IsDiff, NewEnd, OldEnd, Edits, Mirrors, BetweenRounds, Values, RemovesFirst, Script, Distance;
    var oldTokens := TokensOf(oldString);
    var newTokens := TokensOf(newString);
    var maxEditLength := |newTokens| + |oldTokens|;
    var search := new Search(newTokens, oldTokens);
    var same, runs := search.Seed();
    if same {
      var component := Identity(newTokens, oldString, newString, runs);
      return [component];
    }
    while search.editLength <= maxEditLength
      invariant search.Valid()
      invariant search.newTokens == newTokens && search.oldTokens == oldTokens
      invariant fresh(search) && forall p :: p in search.bestPath.Values ==> fresh(p)
      invariant forall c :: c in search.records ==> fresh(c)
      decreases maxEditLength + 1 - search.editLength
    {
      var found;
      ghost var script;
      found, script := search.ExecEditLength();
      if found != null {
        BuildValues(found, newTokens, oldTokens, script, search.records);
        ShortestScriptIsDiff(script, oldString, newString);
        return found.components;
      }
    }
    search.RoundsAreBounded();
    assert false;
  }
}
