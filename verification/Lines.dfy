/** Cutting a text into line tokens, and gluing tokens back together. */
module Lines {

  predicate NoneEmpty(tokens: seq<string>)
  {
    forall i :: 0 <= i < |tokens| ==> tokens[i] != ""
  }

  function Join(tokens: seq<string>): string
  {
    if tokens == [] then "" else tokens[0] + Join(tokens[1..])
  }

  lemma {:induction false} JoinConcat(ts: seq<string>, us: seq<string>)
    ensures Join(ts + us) == Join(ts) + Join(us)
  {
    if ts == [] {
      assert ts + us == us;
    } else {
      assert (ts + us)[1..] == ts[1..] + us;
      JoinConcat(ts[1..], us);
    }
  }

  lemma JoinExtend(ts: seq<string>, i: nat, j: nat)
    requires i <= j <= |ts|
    ensures Join(ts[..j]) == Join(ts[..i]) + Join(ts[i..j])
  {
    assert ts[..j] == ts[..i] + ts[i..j];
    JoinConcat(ts[..i], ts[i..j]);
  }

  /** A line separator, \n or \r\n, starts at position i. */
  predicate BreakAt(s: string, i: nat)
    requires i < |s|
  {
    s[i] == '\n' || (s[i] == '\r' && i + 1 < |s| && s[i + 1] == '\n')
  }

  function FirstBreak(s: string, i: nat): (j: nat)
    requires i <= |s|
    ensures i <= j <= |s|
    ensures forall l :: i <= l < j ==> !BreakAt(s, l)
    ensures j < |s| ==> BreakAt(s, j)
    decreases |s| - i
  {
    if i == |s| || BreakAt(s, i) then i else FirstBreak(s, i + 1)
  }

  /** The pieces of s and the separators between them, alternating. */
  function SplitKeepingBreaks(s: string): (parts: seq<string>)
    ensures |parts| % 2 == 1
    decreases |s|
  {
    var i := FirstBreak(s, 0);
    if i == |s| then [s]
    else
      var n := if s[i] == '\n' then 1 else 2;
      [s[..i], s[i..i + n]] + SplitKeepingBreaks(s[i + n..])
  }

  /** A text without newlines. */
  predicate OneLine(t: string)
  {
    forall l :: 0 <= l < |t| ==> t[l] != '\n'
  }

  predicate IsBreak(t: string)
  {
    t == "\n" || t == "\r\n"
  }

  /** Text without newlines and separators take turns. */
  predicate Alternate(parts: seq<string>)
  {
    forall i :: 0 <= i < |parts| ==> if i % 2 == 0 then OneLine(parts[i]) else IsBreak(parts[i])
  }

  lemma AlternatePrepend(c: string, sep: string, rest: seq<string>)
    requires OneLine(c) && IsBreak(sep) && Alternate(rest)
    ensures Alternate([c, sep] + rest)
    ensures Join([c, sep] + rest) == c + sep + Join(rest)
  {
    var parts := [c, sep] + rest;
    forall i | 0 <= i < |parts|
      ensures if i % 2 == 0 then OneLine(parts[i]) else IsBreak(parts[i])
    {
      if i >= 2 {
        assert parts[i] == rest[i - 2] && (i - 2) % 2 == i % 2;
      }
    }
    assert parts[1..] == [sep] + rest && ([sep] + rest)[1..] == rest;
  }

  lemma OneLineBeforeBreak(s: string, i: nat)
    requires i <= |s| && forall l :: 0 <= l < i ==> !BreakAt(s, l)
    ensures OneLine(s[..i])
  {
    forall l | 0 <= l < i
      ensures s[..i][l] != '\n'
    {
      assert !BreakAt(s, l);
    }
  }

  lemma {:induction false} SplitShape(s: string)
    ensures Join(SplitKeepingBreaks(s)) == s
    ensures Alternate(SplitKeepingBreaks(s))
    decreases |s|
  {
    var i := FirstBreak(s, 0);
    OneLineBeforeBreak(s, i);
    if i == |s| {
      assert s[..i] == s && Join([s]) == s;
    } else {
      var n := if s[i] == '\n' then 1 else 2;
      assert IsBreak(s[i..i + n]);
      hide Join, Alternate, IsBreak, OneLine, BreakAt;
      SplitShape(s[i + n..]);
      AlternatePrepend(s[..i], s[i..i + n], SplitKeepingBreaks(s[i + n..]));
      ThreeSlices(s, i, i + n);
    }
  }

  lemma ThreeSlices(s: string, i: nat, j: nat)
    requires i <= j <= |s|
    ensures s == s[..i] + s[i..j] + s[j..]
  {
  }

  function FirstNewline(s: string, i: nat): (j: nat)
    requires i <= |s|
    ensures i <= j <= |s| && (forall l :: i <= l < j ==> s[l] != '\n') && (j < |s| ==> s[j] == '\n')
    decreases |s| - i
  {
    if i == |s| || s[i] == '\n' then i else FirstNewline(s, i + 1)
  }

  /** The text cut after every newline. */
  function LinesOf(s: string): seq<string>
    decreases |s|
  {
    if s == "" then []
    else
      var i := FirstNewline(s, 0);
      if i == |s| then [s] else [s[..i + 1]] + LinesOf(s[i + 1..])
  }

  /** One line token: not empty, and a newline can only be its last character. */
  predicate IsLine(t: string)
  {
    t != "" && OneLine(t[..|t| - 1])
  }

  /** Line tokens of which only the last may lack its newline. */
  predicate AreLines(ts: seq<string>)
  {
    && (forall i :: 0 <= i < |ts| ==> IsLine(ts[i]))
    && (forall i :: 0 <= i < |ts| - 1 ==> ts[i][|ts[i]| - 1] == '\n')
  }

  lemma LinesOfPrepend(c: string, sep: string, rest: string)
    requires OneLine(c) && IsBreak(sep)
    ensures LinesOf(c + sep + rest) == [c + sep] + LinesOf(rest)
  {
    var s := c + sep + rest;
    var n := |c + sep| - 1;
    forall l | 0 <= l < n
      ensures s[l] != '\n'
    {
      assert s[l] == if l < |c| then c[l] else sep[l - |c|];
    }
    assert s[n] == '\n';
    assert FirstNewline(s, 0) == n;
    assert s[..n + 1] == c + sep && s[n + 1..] == rest;
  }

  lemma LinesOfLast(c: string)
    requires OneLine(c) && c != ""
    ensures LinesOf(c) == [c]
  {
  }

  lemma JoinFirst(t: string, rest: seq<string>)
    ensures Join([t] + rest) == t + Join(rest)
  {
    assert ([t] + rest)[1..] == rest;
  }

  lemma OneMoreLine(t: string, rest: seq<string>)
    requires IsLine(t) && t[|t| - 1] == '\n' && AreLines(rest)
    ensures AreLines([t] + rest)
  {
    var more := [t] + rest;
    assert forall i :: 1 <= i < |more| ==> more[i] == rest[i - 1];
  }

  lemma NoLines()
    ensures LinesOf("") == [] && Join([]) == "" && AreLines([])
  {
  }

  lemma LastLine(s: string)
    requires s != "" && FirstNewline(s, 0) == |s|
    ensures LinesOf(s) == [s] && Join([s]) == s && AreLines([s])
  {
  }

  lemma FirstLine(s: string, i: nat)
    requires s != "" && i == FirstNewline(s, 0) < |s|
    ensures LinesOf(s) == [s[..i + 1]] + LinesOf(s[i + 1..])
  {
  }

  lemma EndsAtNewline(s: string, i: nat)
    requires i < |s| && s[i] == '\n' && forall l :: 0 <= l < i ==> s[l] != '\n'
    ensures IsLine(s[..i + 1]) && s[..i + 1][i] == '\n' && s == s[..i + 1] + s[i + 1..]
  {
    assert s[..i + 1][..i] == s[..i];
  }

  /** Gluing the lines together gives back the text. */
  lemma {:induction false} LinesRoundTrip(s: string)
    ensures Join(LinesOf(s)) == s
    ensures AreLines(LinesOf(s))
    decreases |s|
  {
    hide Join, AreLines, IsLine, LinesOf;
    if s == "" {
      NoLines();
    } else {
      var i := FirstNewline(s, 0);
      if i == |s| {
        LastLine(s);
      } else {
        FirstLine(s, i);
        EndsAtNewline(s, i);
        LinesRoundTrip(s[i + 1..]);
        JoinFirst(s[..i + 1], LinesOf(s[i + 1..]));
        OneMoreLine(s[..i + 1], LinesOf(s[i + 1..]));
      }
    }
  }

  /** There is no other way to cut the text into lines. */
  lemma {:induction false} LinesUnique(ts: seq<string>)
    requires AreLines(ts)
    ensures LinesOf(Join(ts)) == ts
    decreases |ts|
  {
    if ts != [] {
      var t := ts[0];
      LinesUnique(ts[1..]);
      if t[|t| - 1] == '\n' {
        var c := t[..|t| - 1];
        assert t == c + "\n";
        assert Join(ts) == c + "\n" + Join(ts[1..]);
        LinesOfPrepend(c, "\n", Join(ts[1..]));
      } else {
        assert |ts| == 1 && Join(ts[1..]) == "";
        assert Join(ts) == t;
        assert OneLine(t);
        LinesOfLast(t);
      }
    }
  }

  lemma {:induction false} JoinOfLinesIsNotEmpty(ts: seq<string>)
    requires ts != [] && forall i :: 0 <= i < |ts| ==> ts[i] != ""
    ensures Join(ts) != ""
  {
  }

  /** Merging has got to part i: the lines so far, and what the parts still to come
      add to them, are the lines of the whole text. */
  ghost predicate Merged(retLines: seq<string>, parts: seq<string>, i: nat, value: string)
    requires i <= |parts|
  {
    var n := |retLines|;
    if i % 2 == 0 then retLines + LinesOf(Join(parts[i..])) == LinesOf(value)
    else n > 0 && OneLine(retLines[n - 1]) && retLines[..n - 1] + LinesOf(retLines[n - 1] + Join(parts[i..])) == LinesOf(value)
  }

  lemma MergeLine(retLines: seq<string>, parts: seq<string>, i: nat, value: string)
    requires i < |parts| && i % 2 == 0 && OneLine(parts[i]) && Merged(retLines, parts, i, value)
    ensures Merged(retLines + [parts[i]], parts, i + 1, value)
  {
    assert parts[i..][1..] == parts[i + 1..];
    assert (retLines + [parts[i]])[..|retLines|] == retLines;
  }

  lemma MergeBreak(retLines: seq<string>, parts: seq<string>, i: nat, value: string)
    requires i < |parts| && i % 2 == 1 && IsBreak(parts[i]) && Merged(retLines, parts, i, value)
    ensures Merged(retLines[..|retLines| - 1] + [retLines[|retLines| - 1] + parts[i]], parts, i + 1, value)
  {
    var init, last := retLines[..|retLines| - 1], retLines[|retLines| - 1];
    var rest := Join(parts[i + 1..]);
    assert parts[i..][1..] == parts[i + 1..];
    assert last + Join(parts[i..]) == last + parts[i] + rest;
    LinesOfPrepend(last, parts[i], rest);
    assert init + ([last + parts[i]] + LinesOf(rest)) == init + [last + parts[i]] + LinesOf(rest);
  }

  lemma MergeBegins(parts: seq<string>, value: string)
    requires Join(parts) == value
    ensures Merged([], parts, 0, value)
  {
    assert parts[0..] == parts;
  }

  lemma MergeEnds(retLines: seq<string>, parts: seq<string>, value: string)
    requires Merged(retLines, parts, |parts|, value)
    requires |parts| % 2 == 1 ==> retLines != [] && retLines[|retLines| - 1] != ""
    ensures retLines == LinesOf(value)
  {
    if |parts| % 2 == 1 {
      var last := retLines[|retLines| - 1];
      assert last + Join(parts[|parts|..]) == last;
      LinesOfLast(last);
    }
  }

  lemma DropEmptyEnd(parts: seq<string>)
    requires parts != [] && parts[|parts| - 1] == ""
    ensures Join(parts[..|parts| - 1]) == Join(parts)
  {
    assert parts == parts[..|parts| - 1] + [""];
    JoinConcat(parts[..|parts| - 1], [""]);
    assert Join([""]) == "";
  }

  /** Splits at the separators and merges every separator into the line before it. */
  method Tokenize(value: string) returns (retLines: seq<string>)
    ensures retLines == LinesOf(value)
  {
    hide Merged, LinesOf, Join, OneLine, IsBreak, SplitKeepingBreaks;
    var linesAndNewlines := SplitKeepingBreaks(value);
    SplitShape(value);
    var n := |linesAndNewlines|;
    if linesAndNewlines[n - 1] == "" {
      DropEmptyEnd(linesAndNewlines);
      linesAndNewlines := linesAndNewlines[..n - 1];
    }
    retLines := [];
    MergeBegins(linesAndNewlines, value);
    var i := 0;
    while i < |linesAndNewlines|
      invariant i <= |linesAndNewlines|
      invariant Merged(retLines, linesAndNewlines, i, value)
      invariant i % 2 == 1 ==> |retLines| > 0 && retLines[|retLines| - 1] == linesAndNewlines[i - 1]
    {
      var line := linesAndNewlines[i];
      if i % 2 == 1 {
        MergeBreak(retLines, linesAndNewlines, i, value);
        retLines := retLines[..|retLines| - 1] + [retLines[|retLines| - 1] + line];
      } else {
        MergeLine(retLines, linesAndNewlines, i, value);
        retLines := retLines + [line];
      }
      i := i + 1;
    }
    MergeEnds(retLines, linesAndNewlines, value);
  }

  function NonEmpty(ts: seq<string>): seq<string>
  {
    if ts == [] then []
    else if ts[|ts| - 1] == "" then NonEmpty(ts[..|ts| - 1])
    else NonEmpty(ts[..|ts| - 1]) + [ts[|ts| - 1]]
  }

  method RemoveEmpty(tokens: seq<string>) returns (ret: seq<string>)
    ensures ret == NonEmpty(tokens)
  {
    ret := [];
    for i := 0 to |tokens|
      invariant ret == NonEmpty(tokens[..i])
    {
      assert tokens[..i + 1][..i] == tokens[..i];
      if tokens[i] != "" {
        ret := ret + [tokens[i]];
      }
    }
    assert tokens[..|tokens|] == tokens;
  }

  lemma {:induction false} NonEmptyKeepsLines(ts: seq<string>)
    requires forall i :: 0 <= i < |ts| ==> ts[i] != ""
    ensures NonEmpty(ts) == ts
  {
    if ts != [] {
      NonEmptyKeepsLines(ts[..|ts| - 1]);
    }
  }
}
