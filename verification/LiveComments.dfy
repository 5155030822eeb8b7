/** Finding the lines a comment was made on in a file that has changed since. */
module LiveComments {
  import opened Wrappers
  import opened Splitting

  // ---------------------------------------------------------------- how well a window matches

  /** How many rows the window from a start on has: as many as the context, or what is left of the file. */
  function Height(rows: seq<string>, start: nat, context: seq<string>): nat
  {
    if start >= |rows| then 0 else if |context| < |rows| - start then |context| else |rows| - start
  }

  /** Row f of the window is line d of the context. */
  predicate SameLine(rows: seq<string>, start: nat, context: seq<string>, f: int, d: nat, preprocess: string -> string)
    requires d < |context|
  {
    0 <= f < Height(rows, start, context) && preprocess(rows[start + f]) == preprocess(context[d])
  }

  /** Whether a line of the context is some row of the window. */
  ghost predicate InWindow(rows: seq<string>, start: nat, context: seq<string>, d: nat, preprocess: string -> string)
    requires d < |context|
  {
    exists f :: SameLine(rows, start, context, f, d, preprocess)
  }

  /** The lines of the context, as many as the window has rows, that are in the window. */
  ghost function Found(rows: seq<string>, start: nat, context: seq<string>, limit: nat, preprocess: string -> string): set<nat>
    requires limit <= Height(rows, start, context)
  {
    set d: nat | d < limit && InWindow(rows, start, context, d, preprocess)
  }

  /** How many lines match in the window from this row on; outside of the file none do. */
  ghost function Score(rows: seq<string>, start: int, context: seq<string>, preprocess: string -> string): (n: nat)
    ensures n > 0 ==> 0 <= start < |rows|
  {
    if start < 0 then 0
    else
      var n := Height(rows, start, context);
      NoneFound(rows, start, context, preprocess);
      |Found(rows, start, context, n, preprocess)|
  }

  lemma NoneFound(rows: seq<string>, start: nat, context: seq<string>, preprocess: string -> string)
    ensures Found(rows, start, context, 0, preprocess) == {}
  {
  }

  lemma OneMoreLine(rows: seq<string>, start: nat, context: seq<string>, d: nat, preprocess: string -> string)
    requires d < Height(rows, start, context)
    ensures |Found(rows, start, context, d + 1, preprocess)| ==
            |Found(rows, start, context, d, preprocess)| + if InWindow(rows, start, context, d, preprocess) then 1 else 0
  {
    var before, after := Found(rows, start, context, d, preprocess), Found(rows, start, context, d + 1, preprocess);
    assert after == if InWindow(rows, start, context, d, preprocess) then before + {d} else before;
  }

  /** Counts the matching lines; None is the index error of a window that starts before the file. */
  method ContextMatchCount(rows: seq<string>, startRowNum: int, context: seq<string>, preprocess: string -> string)
    returns (matches: Option<nat>)
    ensures matches.None? <==> startRowNum < 0 && context != []
    ensures matches.Some? ==> matches.value == Score(rows, startRowNum, context, preprocess)
  {
    var fuzzyMatches := 0;
    var d := 0;
    ghost var start, n := if startRowNum < 0 then 0 else startRowNum, Height(rows, if startRowNum < 0 then 0 else startRowNum, context);
    NoneFound(rows, start, context, preprocess);
    while d < |context| && startRowNum + d < |rows|
      invariant startRowNum < 0 ==> d == 0 && fuzzyMatches == 0
      invariant startRowNum >= 0 ==> d <= n && fuzzyMatches == |Found(rows, start, context, d, preprocess)|
    {
      if startRowNum >= 0 {
        OneMoreLine(rows, start, context, d, preprocess);
      }
      var fuzzyDelta := 0;
      while fuzzyDelta < |context| && startRowNum + fuzzyDelta < |rows|
        invariant startRowNum < 0 ==> fuzzyDelta == 0
        invariant startRowNum >= 0 ==> fuzzyDelta <= n
        invariant startRowNum >= 0 ==> forall f :: 0 <= f < fuzzyDelta ==> !SameLine(rows, start, context, f, d, preprocess)
      {
        if startRowNum + fuzzyDelta < 0 {
          return None;
        }
        if preprocess(rows[startRowNum + fuzzyDelta]) == preprocess(context[d]) {
          assert SameLine(rows, start, context, fuzzyDelta, d, preprocess);
          fuzzyMatches := fuzzyMatches + 1;
          break;
        }
        fuzzyDelta := fuzzyDelta + 1;
      }
      d := d + 1;
    }
    return Some(fuzzyMatches);
  }

  // ---------------------------------------------------------------- which window is chosen

  const MAX_DELTA := 1000
  const MORE_ITERS := 10

  /** The scores of the windows around the old place. */
  type Scores = int -> nat

  /** The order in which windows are looked at: nearer ones first, then earlier ones. */
  predicate Sooner(s: int, t: int)
  {
    Distance(s) < Distance(t) || (Distance(s) == Distance(t) && s < t)
  }

  function Distance(s: int): nat
  {
    if s < 0 then -s else s
  }

  /** The best of all windows nearer than `examined`, and the soonest of the best. */
  ghost predicate IsBest(scores: Scores, examined: nat, best: nat, delta: int)
  {
    && (forall s: int :: Distance(s) < examined ==> scores(s) <= best)
    && (best > 0 ==> Distance(delta) < examined && scores(delta) == best)
    && (best > 0 ==> forall s: int :: Sooner(s, delta) ==> scores(s) < best)
  }

  /** Whether some window this far away has more than two matches. */
  predicate Promising(scores: Scores, d: int)
  {
    scores(-d) > 2 || scores(d) > 2
  }

  /** Nothing this near is promising. */
  ghost predicate NothingPromising(scores: Scores, examined: int)
  {
    forall d: int :: 0 <= d < examined ==> !Promising(scores, d)
  }

  /** All windows nearer than `examined` have been looked at: up to ten beyond the first
      promising one, unless five lines matched before, and never a thousand away. */
  ghost predicate StopsAt(scores: Scores, examined: nat, best: nat)
  {
    && examined <= MAX_DELTA
    && (examined == MAX_DELTA || best == 5 || exists d: int :: FirstPromising(scores, d) && examined == d + MORE_ITERS + 1)
    && (forall d: int :: FirstPromising(scores, d) ==> examined <= d + MORE_ITERS + 1)
    && NoFive(scores, examined)
  }

  /** Five lines match in the best of the windows this near. */
  ghost predicate Five(scores: Scores, examined: nat)
  {
    exists delta: int :: IsBest(scores, examined, 5, delta)
  }

  ghost predicate NoFive(scores: Scores, examined: nat)
  {
    forall e: nat :: e < examined ==> !Five(scores, e)
  }

  lemma OneBest(scores: Scores, examined: nat, best: nat, delta: int, best': nat, delta': int)
    requires IsBest(scores, examined, best, delta) && IsBest(scores, examined, best', delta')
    ensures best == best' && (best > 0 ==> delta == delta')
  {
    assert best > 0 && delta != delta' ==> Sooner(delta, delta') || Sooner(delta', delta);
  }

  ghost predicate FirstPromising(scores: Scores, d: int)
  {
    d >= 0 && Promising(scores, d) && NothingPromising(scores, d)
  }

  /** The best of the windows up to where the search stops. */
  ghost predicate IsChosen(scores: Scores, best: nat, delta: int)
  {
    exists examined: nat :: IsBest(scores, examined, best, delta) && StopsAt(scores, examined, best)
  }

  /** There is one choice, unless nothing matches anywhere. */
  lemma OneChoice(scores: Scores, best: nat, delta: int, best': nat, delta': int)
    requires IsChosen(scores, best, delta) && IsChosen(scores, best', delta')
    ensures best == best' && (best > 0 ==> delta == delta')
  {
    var e :| IsBest(scores, e, best, delta) && StopsAt(scores, e, best);
    var e' :| IsBest(scores, e', best', delta') && StopsAt(scores, e', best');
    assert best == 5 ==> Five(scores, e);
    assert best' == 5 ==> Five(scores, e');
    OneBest(scores, e, best, delta, best', delta');
  }

  /** The state of the search after looking at all windows nearer than delta. */
  ghost predicate Searched(scores: Scores, delta: nat, best: nat, bestDelta: int, remaining: int)
  {
    && IsBest(scores, delta, best, bestDelta) && NoFive(scores, delta)
    && Counts(scores, delta, best, remaining)
  }

  /** The countdown has not begun before the first promising distance. */
  ghost predicate Counts(scores: Scores, delta: nat, best: nat, remaining: int)
  {
    && (remaining == -1 ==> NothingPromising(scores, delta) && best <= 2)
    && (remaining != -1 ==>
          0 <= remaining <= MORE_ITERS && best > 2 && FirstPromising(scores, delta + remaining - MORE_ITERS - 1))
  }

  /** How many more distances to look at after a window with this score. */
  function IterationsLeft(remaining: int, best: nat, score: nat): int
  {
    if score > best && remaining == -1 && score > 2 then MORE_ITERS else remaining
  }

  function Larger(best: nat, score: nat): nat
  {
    if score > best then score else best
  }

  lemma BestOfMore(scores: Scores, d: int, best: nat, bestDelta: int)
    requires d >= 0 && IsBest(scores, d, best, bestDelta)
    ensures var b1 := Larger(best, scores(-d));
            var d1 := if scores(-d) > best then -d else bestDelta;
            IsBest(scores, d + 1, Larger(b1, scores(d)), if scores(d) > b1 then d else d1)
  {
    assert forall s: int :: Distance(s) == d ==> s == d || s == -d;
  }

  lemma NotFive(scores: Scores, d: nat, best: nat, bestDelta: int)
    requires IsBest(scores, d, best, bestDelta) && best != 5
    ensures !Five(scores, d)
  {
    if delta: int :| IsBest(scores, d, 5, delta) {
      OneBest(scores, d, best, bestDelta, 5, delta);
    }
  }

  lemma CountsMore(scores: Scores, d: int, best: nat, remaining: int)
    requires d >= 0 && Counts(scores, d, best, remaining) && !(best > 0 && remaining == 0)
    ensures var r0 := if best > 0 && remaining > 0 then remaining - 1 else remaining;
            var b1, r1 := Larger(best, scores(-d)), IterationsLeft(r0, best, scores(-d));
            Counts(scores, d + 1, Larger(b1, scores(d)), IterationsLeft(r1, b1, scores(d)))
  {
    if remaining == -1 && Promising(scores, d) {
      assert FirstPromising(scores, d);
    }
  }

  /** Looking at the two windows that are d away, the earlier one first. */
  lemma SearchMore(scores: Scores, d: int, best: nat, bestDelta: int, remaining: int)
    requires d >= 0 && Searched(scores, d, best, bestDelta, remaining) && !(best > 0 && remaining == 0) && best != 5
    ensures var r0 := if best > 0 && remaining > 0 then remaining - 1 else remaining;
            var b1, r1 := Larger(best, scores(-d)), IterationsLeft(r0, best, scores(-d));
            var d1 := if scores(-d) > best then -d else bestDelta;
            var b2, r2 := Larger(b1, scores(d)), IterationsLeft(r1, b1, scores(d));
            var d2 := if scores(d) > b1 then d else d1;
            Searched(scores, d + 1, b2, d2, r2)
  {
    BestOfMore(scores, d, best, bestDelta);
    NotFive(scores, d, best, bestDelta);
    hide IsBest, Five, Larger, IterationsLeft;
    CountsMore(scores, d, best, remaining);
    hide Counts;
  }

  /** When the search stops, it has looked far enough. */
  lemma SearchStops(scores: Scores, d: nat, best: nat, bestDelta: int, remaining: int)
    requires Searched(scores, d, best, bestDelta, remaining)
    requires d == MAX_DELTA || best == 5 || (best > 0 && remaining == 0)
    requires d <= MAX_DELTA
    ensures StopsAt(scores, d, best)
  {
    hide IsBest;
    if remaining != -1 {
      var first := d + remaining - MORE_ITERS - 1;
      assert FirstPromising(scores, first);
      forall e: int | FirstPromising(scores, e)
        ensures d <= e + MORE_ITERS + 1
      {
        assert e >= first;
      }
    } else {
      forall e: int | FirstPromising(scores, e)
        ensures d <= e + MORE_ITERS + 1
      {
        assert e >= d;
      }
    }
  }

  lemma SearchBegins(scores: Scores)
    ensures Searched(scores, 0, 0, 0, -1)
  {
  }

  lemma SearchedBest(scores: Scores, d: nat, best: nat, bestDelta: int, remaining: int)
    requires Searched(scores, d, best, bestDelta, remaining)
    ensures IsBest(scores, d, best, bestDelta)
    ensures best > 0 ==> scores(bestDelta) == best
  {
  }

  /** The best window so far, where it is, and how many more distances to look at. */
  datatype Best = Best(matches: nat, delta: int, remaining: int)

  function LookedAt(best: Best, score: nat, delta: int): Best
  {
    Best(Larger(best.matches, score), if score > best.matches then delta else best.delta,
         IterationsLeft(best.remaining, best.matches, score))
  }

  /** Looks at one window, and after the first promising one sets how much longer to search. */
  method LookAt(rows: seq<string>, start: int, context: seq<string>, preprocess: string -> string, best: Best, delta: int)
    returns (r: Option<Best>)
    ensures r.None? <==> start < 0 && context != []
    ensures r.Some? ==> r.value == LookedAt(best, Score(rows, start, context, preprocess), delta)
  {
    var fuzzyMatches := ContextMatchCount(rows, start, context, preprocess);
    if fuzzyMatches.None? {
      return None;
    }
    var next := best;
    if fuzzyMatches.value > best.matches {
      if best.remaining == -1 && fuzzyMatches.value > 2 {
        next := next.(remaining := 10);
      }
      next := next.(matches := fuzzyMatches.value, delta := delta);
    }
    return Some(next);
  }

  /** The scores of the windows around the place where the context was. */
  ghost function ScoresOf(rows: seq<string>, context: seq<string>, contextStartsAt: int, preprocess: string -> string): Scores
  {
    (s: int) => Score(rows, contextStartsAt + s, context, preprocess)
  }

  lemma ScoreAt(rows: seq<string>, context: seq<string>, contextStartsAt: int, preprocess: string -> string, s: int)
    ensures var scores := ScoresOf(rows, context, contextStartsAt, preprocess);
            && scores(s) == Score(rows, contextStartsAt + s, context, preprocess)
            && (!(0 <= contextStartsAt + s < |rows|) ==> scores(s) == 0)
  {
  }

  /** Searches outwards from the old place for the window that matches best; None is an index error. */
  method Search(rows: seq<string>, context: seq<string>, contextStartsAt: int, preprocess: string -> string)
    returns (r: Option<Best>)
    ensures r.None? <==> contextStartsAt < 0 && context != []
    ensures r.Some? ==> IsChosen(ScoresOf(rows, context, contextStartsAt, preprocess), r.value.matches, r.value.delta)
  {
    hide Searched, StopsAt, IsBest, Score, ScoresOf;
    ghost var scores := ScoresOf(rows, context, contextStartsAt, preprocess);
    var best := Best(0, 0, -1);
    var d := 0;
    SearchBegins(scores);
    while d < 1000
      invariant d <= MAX_DELTA
      invariant Searched(scores, d, best.matches, best.delta, best.remaining) && best.matches != 5
      invariant contextStartsAt < 0 && context != [] ==> d == 0 && best.matches == 0
    {
      ghost var left := best.remaining;
      if best.matches > 0 {
        if best.remaining == 0 {
          break;
        } else if best.remaining > 0 {
          best := best.(remaining := best.remaining - 1);
        }
      }
      SearchMore(scores, d, best.matches, best.delta, left);
      ScoreAt(rows, context, contextStartsAt, preprocess, -d);
      ScoreAt(rows, context, contextStartsAt, preprocess, d);
      if contextStartsAt - d >= 0 {
        var earlier := LookAt(rows, contextStartsAt - d, context, preprocess, best, -d);
        if earlier.None? {
          return None;
        }
        best := earlier.value;
      }
      if contextStartsAt + d < |rows| {
        var later := LookAt(rows, contextStartsAt + d, context, preprocess, best, d);
        if later.None? {
          return None;
        }
        best := later.value;
      }
      d := d + 1;
      if best.matches == 5 {
        break;
      }
    }
    SearchStops(scores, d, best.matches, best.delta, best.remaining);
    SearchedBest(scores, d, best.matches, best.delta, best.remaining);
    return Some(best);
  }

  /** The comment moves with the best window, if enough lines match there; this window starts
      inside the file. Otherwise it has no place. */
  ghost predicate IsPlaced(location: int, rows: seq<string>, context: seq<string>, contextStartsAt: int, lineStart: int,
                           preprocess: string -> string)
  {
    exists best: nat, delta: int ::
      && IsChosen(ScoresOf(rows, context, contextStartsAt, preprocess), best, delta)
      && location == (if best >= 3 || best >= |rows| then lineStart + delta + 1 else -1)
      && (best >= 3 || best >= |rows| ==> 0 <= contextStartsAt + delta < |rows|)
  }

  /** The row of the comment in the changed file, from the place of the best window: -1 if
      fewer than three lines match there, or fewer than the file has. A context that starts at a
      negative line is an index error. */
  method FuzzyNewLocation(fileContents: string, commentContext: string, contextStartsAt: int, lineStart: int,
                          preprocess: string -> string)
    returns (location: Option<int>)
    ensures location.None? <==> contextStartsAt < 0
    ensures var rows, lines := Split(fileContents, "\n"), Split(commentContext, "\n");
            var context := if |lines| == 6 then lines[..5] else lines;
            location.Some? ==> IsPlaced(location.value, rows, context, contextStartsAt, lineStart, preprocess)
  {
    var rows := Split(fileContents, "\n");
    var context := Split(commentContext, "\n");
    if |context| == 6 {
      context := context[..5];
    }
    var best := Search(rows, context, contextStartsAt, preprocess);
    if best.None? {
      return None;
    }
    ScoreAt(rows, context, contextStartsAt, preprocess, best.value.delta);
    var threshold := 3;
    if threshold > |rows| {
      threshold := |rows|;
    }
    if best.value.matches >= threshold {
      location := Some(contextStartsAt + best.value.delta + (lineStart - contextStartsAt) + 1);
    } else {
      location := Some(-1);
    }
  }

  // ---------------------------------------------------------------- the context of a new comment

  /** Whether line l, counted from 1, is at most two lines away from the commented one. */
  predicate Near(l: int, lineNumber: int)
  {
    lineNumber - 2 <= l <= lineNumber + 2
  }

  /** The lines near the commented one among the first n. */
  function ContextOf(lines: seq<string>, lineNumber: int, n: nat): string
    requires n <= |lines|
  {
    if n == 0 then ""
    else ContextOf(lines, lineNumber, n - 1) + if Near(n, lineNumber) then lines[n - 1] + "\n" else ""
  }

  lemma {:induction false} NothingNear(lines: seq<string>, lineNumber: int, i: nat, n: nat)
    requires i <= n <= |lines| && lineNumber + 2 <= i
    ensures ContextOf(lines, lineNumber, n) == ContextOf(lines, lineNumber, i)
  {
    if i < n {
      NothingNear(lines, lineNumber, i, n - 1);
    }
  }

  /** The first of the first n lines that is near the commented one; -1 if none is. */
  predicate IsFirstNear(start: int, lineNumber: int, n: nat)
  {
    if start == -1 then forall l :: 1 <= l <= n ==> !Near(l, lineNumber)
    else 1 <= start <= n && Near(start, lineNumber) && forall l :: 1 <= l < start ==> !Near(l, lineNumber)
  }

  lemma FirstNearMore(start: int, lineNumber: int, n: nat)
    requires IsFirstNear(start, lineNumber, n)
    ensures IsFirstNear(if start == -1 && Near(n + 1, lineNumber) then n + 1 else start, lineNumber, n + 1)
  {
  }

  lemma WhereNearStarts(start: int, lineNumber: int, n: nat)
    requires IsFirstNear(start, lineNumber, n)
    ensures start == if n == 0 || lineNumber > n + 2 || lineNumber < -1 then -1 else if lineNumber < 3 then 1 else lineNumber - 2
  {
    var l := if lineNumber < 3 then 1 else lineNumber - 2;
    if n > 0 && -1 <= lineNumber <= n + 2 {
      assert Near(l, lineNumber);
    }
  }

  /** Beyond two lines after the commented one there is nothing near it. */
  lemma NoMoreNear(lines: seq<string>, start: int, lineNumber: int, i: nat)
    requires i <= |lines| && lineNumber + 2 <= i && IsFirstNear(start, lineNumber, i)
    ensures IsFirstNear(start, lineNumber, |lines|)
    ensures ContextOf(lines, lineNumber, |lines|) == ContextOf(lines, lineNumber, i)
  {
    NothingNear(lines, lineNumber, i, |lines|);
  }

  lemma ContextMore(lines: seq<string>, lineNumber: int, n: nat)
    requires n < |lines|
    ensures ContextOf(lines, lineNumber, n + 1) ==
            if Near(n + 1, lineNumber) then ContextOf(lines, lineNumber, n) + lines[n] + "\n" else ContextOf(lines, lineNumber, n)
  {
    var before := ContextOf(lines, lineNumber, n);
    assert before + (lines[n] + "\n") == before + lines[n] + "\n" && before + "" == before;
  }

  /** The lines near the commented one, each with a newline. */
  predicate JoinsNear(context: string, lines: seq<string>, lineNumber: int)
  {
    context == JoinWith(NearLines(lines, lineNumber, |lines|) + [""], "\n")
  }

  lemma ContextJoins(lines: seq<string>, lineNumber: int)
    ensures JoinsNear(ContextOf(lines, lineNumber, |lines|), lines, lineNumber)
  {
    JoinedContext(lines, lineNumber, |lines|);
  }

  /** The context of a comment: the lines near it, each with a newline, and the number of the first of them. */
  method GetFSContext(lines: seq<string>, lineNumber: int) returns (context: string, startsAtLine: int)
    ensures context == ContextOf(lines, lineNumber, |lines|) && JoinsNear(context, lines, lineNumber)
    ensures IsFirstNear(startsAtLine, lineNumber, |lines|)
    ensures startsAtLine == -1 ==> context == "" && Split(context, "\n") == [""]
  {
    hide JoinsNear, ContextOf, IsFirstNear, Split;
    EmptyContext(lines, lineNumber);
    ContextJoins(lines, lineNumber);
    var l := 1;
    context, startsAtLine := "", -1;
    while l <= |lines|
      invariant 1 <= l <= |lines| + 1 && context == ContextOf(lines, lineNumber, l - 1)
      invariant IsFirstNear(startsAtLine, lineNumber, l - 1) && (startsAtLine == -1 ==> context == "")
    {
      ContextMore(lines, lineNumber, l - 1);
      FirstNearMore(startsAtLine, lineNumber, l - 1);
      if lineNumber - 2 <= l <= lineNumber + 2 {
        if startsAtLine == -1 {
          startsAtLine := l;
        }
        context := context + lines[l - 1] + "\n";
      }
      if l == lineNumber + 2 {
        NoMoreNear(lines, startsAtLine, lineNumber, l);
        return;
      }
      l := l + 1;
    }
  }

  lemma EmptyContext(lines: seq<string>, lineNumber: int)
    ensures ContextOf(lines, lineNumber, 0) == "" && IsFirstNear(-1, lineNumber, 0) && Split("", "\n") == [""]
  {
  }

  lemma {:induction false} JoinMore(parts: seq<string>, x: string)
    ensures JoinWith(parts + [x, ""], "\n") == JoinWith(parts + [""], "\n") + x + "\n"
  {
    if parts == [] {
      assert [x, ""][1..] == [""];
    } else {
      JoinMore(parts[1..], x);
      assert (parts + [x, ""])[1..] == parts[1..] + [x, ""] && (parts + [""])[1..] == parts[1..] + [""];
    }
  }

  /** Line n in the middle of the five lines around it. */
  function Around(lines: seq<string>, n: nat): (five: seq<string>)
    requires 3 <= n <= |lines| - 2
    ensures |five| == 5 && five[2] == lines[n - 1]
  {
    lines[n - 3..n + 2]
  }

  /** The first n lines, as far as they are at most two lines away from the commented one. */
  function NearLines(lines: seq<string>, lineNumber: int, n: nat): seq<string>
    requires n <= |lines|
  {
    var from := if lineNumber < 3 then 0 else lineNumber - 3;
    var to := if n < lineNumber + 2 then n else lineNumber + 2;
    if from < to then lines[from..to] else []
  }

  lemma NearLinesMore(lines: seq<string>, lineNumber: int, n: nat)
    requires 0 < n <= |lines|
    ensures NearLines(lines, lineNumber, n) ==
            NearLines(lines, lineNumber, n - 1) + if Near(n, lineNumber) then [lines[n - 1]] else []
  {
  }

  /** The context of a comment is the lines around it, each with a newline. */
  lemma {:induction false} JoinedContext(lines: seq<string>, lineNumber: int, n: nat)
    requires n <= |lines|
    ensures ContextOf(lines, lineNumber, n) == JoinWith(NearLines(lines, lineNumber, n) + [""], "\n")
  {
    hide JoinWith, NearLines, Near;
    if n == 0 {
      NoContext(lines, lineNumber);
    } else {
      JoinedContext(lines, lineNumber, n - 1);
      NearLinesMore(lines, lineNumber, n);
      JoinedMore(NearLines(lines, lineNumber, n - 1), lines[n - 1]);
    }
  }

  lemma NoContext(lines: seq<string>, lineNumber: int)
    ensures JoinWith(NearLines(lines, lineNumber, 0) + [""], "\n") == ""
  {
    assert NearLines(lines, lineNumber, 0) + [""] == [""];
  }

  lemma JoinedMore(before: seq<string>, x: string)
    ensures JoinWith(before + [x] + [""], "\n") == JoinWith(before + [""], "\n") + (x + "\n")
    ensures before + [] == before
  {
    JoinMore(before, x);
    hide JoinWith;
    assert before + [x] + [""] == before + [x, ""];
  }

  /** The context that is looked for is the five lines around the comment. */
  lemma ContextIsAround(lines: seq<string>, n: nat)
    requires 3 <= n <= |lines| - 2 && forall i :: 0 <= i < |lines| ==> Without(lines[i], '\n')
    ensures Split(ContextOf(lines, n, |lines|), "\n") == Around(lines, n) + [""]
  {
    JoinedContext(lines, n, |lines|);
    SplitJoined(Around(lines, n) + [""], "\n");
  }

  lemma ScoreIsLimited(rows: seq<string>, start: int, context: seq<string>, preprocess: string -> string)
    ensures Score(rows, start, context, preprocess) <= |context|
  {
    if start >= 0 {
      var n := Height(rows, start, context);
      FoundIsLimited(rows, start, context, n, preprocess);
    }
  }

  lemma {:induction false} FoundIsLimited(rows: seq<string>, start: nat, context: seq<string>, n: nat, preprocess: string -> string)
    requires n <= Height(rows, start, context)
    ensures |Found(rows, start, context, n, preprocess)| <= n
  {
    if n == 0 {
      NoneFound(rows, start, context, preprocess);
    } else {
      FoundIsLimited(rows, start, context, n - 1, preprocess);
      OneMoreLine(rows, start, context, n - 1, preprocess);
    }
  }

  /** The first rows are these lines, as far as the comparison sees. */
  ghost predicate Alike(lines: seq<string>, rows: seq<string>, preprocess: string -> string)
  {
    |lines| <= |rows| && forall i :: 0 <= i < |lines| ==> preprocess(rows[i]) == preprocess(lines[i])
  }

  /** Where the context itself stands, every line of it is found. */
  lemma {:induction false} FoundWhereItIs(rows: seq<string>, start: nat, context: seq<string>, n: nat, preprocess: string -> string)
    requires start + |context| <= |rows| && Alike(context, rows[start..], preprocess) && n <= |context|
    requires n <= Height(rows, start, context)
    ensures |Found(rows, start, context, n, preprocess)| == n
  {
    if n == 0 {
      NoneFound(rows, start, context, preprocess);
    } else {
      FoundWhereItIs(rows, start, context, n - 1, preprocess);
      OneMoreLine(rows, start, context, n - 1, preprocess);
      assert rows[start..][n - 1] == rows[start + (n - 1)];
      assert SameLine(rows, start, context, n - 1, n - 1, preprocess);
    }
  }

  /** Five lines match one line further up than where the search begins: they are chosen,
      unless five lines match right there. */
  lemma OneUp(scores: Scores, best: nat, delta: int)
    requires IsChosen(scores, best, delta)
    requires scores(-1) == 5 && forall s: int :: scores(s) <= 5
    ensures best == 5 && delta == if scores(0) == 5 then 0 else -1
  {
    var e: nat :| IsBest(scores, e, best, delta) && StopsAt(scores, e, best);
    var examined: nat, found := if scores(0) == 5 then 1 else 2, if scores(0) == 5 then 0 else -1;
    assert IsBest(scores, examined, 5, found);
    assert Five(scores, examined);
    assert e <= examined;
    if e <= 1 {
      NearBest(scores, e, best, delta);
    }
    assert e == examined;
    OneBest(scores, e, best, delta, 5, found);
  }

  lemma NearBest(scores: Scores, e: nat, best: nat, delta: int)
    requires IsBest(scores, e, best, delta) && e <= 1
    ensures best > 0 ==> e == 1 && delta == 0 && best == scores(0)
  {
  }

  lemma AroundScores(lines: seq<string>, n: nat, rows: seq<string>, preprocess: string -> string)
    requires 3 <= n <= |lines| - 2 && Alike(lines, rows, preprocess)
    ensures Score(rows, n - 3, Around(lines, n), preprocess) == 5
  {
    var context := Around(lines, n);
    forall i | 0 <= i < 5
      ensures preprocess(rows[n - 3..][i]) == preprocess(context[i])
    {
      assert rows[n - 3..][i] == rows[n - 3 + i] && context[i] == lines[n - 3 + i];
    }
    assert Height(rows, n - 3, context) == 5;
    hide Around;
    FoundWhereItIs(rows, n - 3, context, 5, preprocess);
  }

  /** The first line of the context of line n occurs again in the five rows after it. */
  ghost predicate OccursAgain(lines: seq<string>, n: nat, rows: seq<string>, preprocess: string -> string)
    requires 3 <= n <= |lines| - 2
  {
    n + 3 <= |rows| && exists i :: n - 2 <= i < n + 3 && preprocess(rows[i]) == preprocess(lines[n - 3])
  }

  /** One line further down all but the first line of the context are found, and that one if it occurs again. */
  lemma {:induction false} FoundOneDown(lines: seq<string>, n: nat, rows: seq<string>, preprocess: string -> string, k: nat)
    requires 3 <= n <= |lines| - 2 && Alike(lines, rows, preprocess) && 1 <= k <= Height(rows, n - 2, Around(lines, n))
    ensures var first := InWindow(rows, n - 2, Around(lines, n), 0, preprocess);
            |Found(rows, n - 2, Around(lines, n), k, preprocess)| == k - 1 + if first then 1 else 0
    decreases k
  {
    var context := Around(lines, n);
    OneMoreLine(rows, n - 2, context, k - 1, preprocess);
    if k == 1 {
      NoneFound(rows, n - 2, context, preprocess);
    } else {
      FoundOneDown(lines, n, rows, preprocess, k - 1);
      assert context[k - 1] == lines[n - 3 + (k - 1)] && rows[n - 2 + (k - 2)] == rows[n - 3 + (k - 1)];
      assert SameLine(rows, n - 2, context, k - 2, k - 1, preprocess);
    }
  }

  lemma ScoreOneDown(lines: seq<string>, n: nat, rows: seq<string>, preprocess: string -> string)
    requires 3 <= n <= |lines| - 2 && Alike(lines, rows, preprocess)
    ensures Score(rows, n - 2, Around(lines, n), preprocess) == 5 <==> OccursAgain(lines, n, rows, preprocess)
  {
    var context := Around(lines, n);
    var height := Height(rows, n - 2, context);
    FoundOneDown(lines, n, rows, preprocess, height);
    assert context[0] == lines[n - 3];
    if OccursAgain(lines, n, rows, preprocess) {
      var i :| n - 2 <= i < n + 3 && preprocess(rows[i]) == preprocess(lines[n - 3]);
      assert SameLine(rows, n - 2, context, i - (n - 2), 0, preprocess);
    }
    if height == 5 && InWindow(rows, n - 2, context, 0, preprocess) {
      var f :| SameLine(rows, n - 2, context, f, 0, preprocess);
      assert n - 2 <= n - 2 + f < n + 3 && preprocess(rows[n - 2 + f]) == preprocess(lines[n - 3]);
    }
  }

  /** In a file that still begins with these lines, a comment with two lines on either side is found on
      its line, or on the next one if the first line of its context soon occurs again. */
  lemma UnchangedIsFound(lines: seq<string>, n: nat, rows: seq<string>, preprocess: string -> string, location: int)
    requires 3 <= n <= |lines| - 2 && Alike(lines, rows, preprocess)
    requires IsPlaced(location, rows, Around(lines, n), n - 2, n, preprocess)
    ensures location == if OccursAgain(lines, n, rows, preprocess) then n + 1 else n
  {
    hide IsChosen, Score, Around, OccursAgain;
    var context := Around(lines, n);
    var scores := ScoresOf(rows, context, n - 2, preprocess);
    forall s: int
      ensures scores(s) == Score(rows, n - 2 + s, context, preprocess) <= 5
    {
      ScoreIsLimited(rows, n - 2 + s, context, preprocess);
    }
    AroundScores(lines, n, rows, preprocess);
    ScoreOneDown(lines, n, rows, preprocess);
    var best: nat, delta: int :|
      && IsChosen(scores, best, delta)
      && location == (if best >= 3 || best >= |rows| then n + delta + 1 else -1);
    OneUp(scores, best, delta);
  }

  /** Five lines of which the first two are the same, in a file with a newline at its end. */
  lemma TwoBraces()
    ensures OccursAgain(["}", "}", "c", "d", "e"], 3, ["}", "}", "c", "d", "e", ""], x => x)
  {
    var rows := ["}", "}", "c", "d", "e", ""];
    assert rows[1] == "}";
  }

  /** A comment on a line of one file, looked for in another: it cannot be looked for at all if the
      commented line is more than two lines outside of its file, or if that file is empty. In a
      file that begins with the same lines it is found on its line, or on the next one as said above. */
  method FindAgain(lines: seq<string>, lineNumber: int, fileContents: string, preprocess: string -> string)
    returns (location: Option<int>)
    ensures location.None? <==> lines == [] || lineNumber > |lines| + 2 || lineNumber < -1
    ensures var rows := Split(fileContents, "\n");
            3 <= lineNumber <= |lines| - 2 && Alike(lines, rows, preprocess) && (forall i :: 0 <= i < |lines| ==> Without(lines[i], '\n')) ==>
              location == Some(if OccursAgain(lines, lineNumber, rows, preprocess) then lineNumber + 1 else lineNumber)
  {
    hide IsPlaced, ContextOf, Around, OccursAgain, Alike, IsFirstNear, JoinsNear;
    var context, startsAtLine := GetFSContext(lines, lineNumber);
    WhereNearStarts(startsAtLine, lineNumber, |lines|);
    location := FuzzyNewLocation(fileContents, context, startsAtLine, lineNumber, preprocess);
    ghost var rows := Split(fileContents, "\n");
    if 3 <= lineNumber <= |lines| - 2 && Alike(lines, rows, preprocess) && (forall i :: 0 <= i < |lines| ==> Without(lines[i], '\n')) {
      ContextIsAround(lines, lineNumber);
      assert (Around(lines, lineNumber) + [""])[..5] == Around(lines, lineNumber);
      UnchangedIsFound(lines, lineNumber, rows, preprocess, location.value);
    }
  }
}
