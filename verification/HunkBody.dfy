/** The body of a hunk: marked lines, the two sides they describe, and their inversion. */
module HunkBody {
  import opened Lines

  /** The content of every line that is not marked with `skip`, without its marker. */
  function Side(lines: seq<string>, skip: char): seq<string>
    requires NoneEmpty(lines)
  {
    if lines == [] then []
    else if lines[0][0] == skip then Side(lines[1..], skip)
    else [lines[0][1..]] + Side(lines[1..], skip)
  }

  /** The lines a body takes from the old file. */
  function OldSide(body: string): seq<string>
  {
    LinesRoundTrip(body);
    Side(LinesOf(body), '+')
  }

  /** The lines a body leaves in the new file. */
  function NewSide(body: string): seq<string>
  {
    LinesRoundTrip(body);
    Side(LinesOf(body), '-')
  }

  function FlipMarker(c: char): char
  {
    if c == '-' then '+' else if c == '+' then '-' else c
  }

  function FlipLine(line: string): string
  {
    if line == "" then "" else [FlipMarker(line[0])] + line[1..]
  }

  function FlipLines(lines: seq<string>): (r: seq<string>)
    ensures |r| == |lines|
    ensures forall i :: 0 <= i < |lines| ==> r[i] == FlipLine(lines[i])
  {
    if lines == [] then [] else [FlipLine(lines[0])] + FlipLines(lines[1..])
  }

  /** A body with the markers of its lines exchanged. */
  function Flip(body: string): string
  {
    Join(FlipLines(LinesOf(body)))
  }

  lemma FlippedLinesAreLines(lines: seq<string>)
    requires AreLines(lines)
    ensures AreLines(FlipLines(lines))
  {
    var r := FlipLines(lines);
    forall i | 0 <= i < |r|
      ensures IsLine(r[i]) && (lines[i][|lines[i]| - 1] == '\n' ==> r[i][|r[i]| - 1] == '\n')
    {
      FlippedLineIsLine(lines[i]);
    }
  }

  lemma FlippedLineIsLine(line: string)
    requires IsLine(line)
    ensures IsLine(FlipLine(line)) && |FlipLine(line)| == |line|
    ensures line[|line| - 1] == '\n' ==> FlipLine(line)[|line| - 1] == '\n'
  {
    var r, n := FlipLine(line), |line| - 1;
    forall j | 0 <= j < |r[..n]|
      ensures r[..n][j] != '\n'
    {
      assert line[..n][j] == line[j];
    }
  }

  /** The lines of a flipped body are the flipped lines of the body. */
  lemma LinesOfFlip(body: string)
    ensures LinesOf(Flip(body)) == FlipLines(LinesOf(body))
  {
    LinesRoundTrip(body);
    FlippedLinesAreLines(LinesOf(body));
    LinesUnique(FlipLines(LinesOf(body)));
  }

  lemma {:induction false} FlipLinesTwice(lines: seq<string>)
    ensures FlipLines(FlipLines(lines)) == lines
  {
    if lines != [] {
      FlipLinesTwice(lines[1..]);
      var r := FlipLines(lines);
      assert r[1..] == FlipLines(lines[1..]);
      assert FlipLine(FlipLine(lines[0])) == lines[0];
    }
  }

  /** Flipping twice gives back the body. */
  lemma FlipTwice(body: string)
    ensures Flip(Flip(body)) == body
  {
    LinesOfFlip(body);
    FlipLinesTwice(LinesOf(body));
    LinesRoundTrip(body);
  }

  lemma {:induction false} SideOfFlippedLines(lines: seq<string>)
    requires NoneEmpty(lines)
    ensures NoneEmpty(FlipLines(lines))
    ensures Side(FlipLines(lines), '+') == Side(lines, '-')
    ensures Side(FlipLines(lines), '-') == Side(lines, '+')
  {
    if lines != [] {
      SideOfFlippedLines(lines[1..]);
      var r := FlipLines(lines);
      assert r[1..] == FlipLines(lines[1..]);
      assert r[0] == [FlipMarker(lines[0][0])] + lines[0][1..];
      assert r[0][1..] == lines[0][1..];
    }
  }

  /** Flipping exchanges what is taken from the old file with what is left in the new one. */
  lemma FlipExchangesSides(body: string)
    ensures OldSide(Flip(body)) == NewSide(body)
    ensures NewSide(Flip(body)) == OldSide(body)
  {
    LinesRoundTrip(body);
    LinesOfFlip(body);
    SideOfFlippedLines(LinesOf(body));
  }

  /** The character-by-character view of flipping: a marker follows a newline. */
  function FlipAfter(prev: char, body: string): (r: string)
    ensures |r| == |body|
    decreases |body|
  {
    if body == "" then ""
    else [if prev == '\n' then FlipMarker(body[0]) else body[0]] + FlipAfter(body[0], body[1..])
  }

  lemma {:induction false} FlipAfterConcat(prev: char, s: string, t: string)
    ensures FlipAfter(prev, s + t) == FlipAfter(prev, s) + FlipAfter(if s == "" then prev else s[|s| - 1], t)
    decreases |s|
  {
    if s == "" {
      assert s + t == t;
    } else {
      assert (s + t)[1..] == s[1..] + t;
      FlipAfterConcat(s[0], s[1..], t);
    }
  }

  lemma {:induction false} FlipAfterInsideLine(prev: char, t: string)
    requires prev != '\n' && (t != "" ==> OneLine(t[..|t| - 1]))
    ensures FlipAfter(prev, t) == t
    decreases |t|
  {
    if t != "" {
      if |t| > 1 {
        assert t[..|t| - 1][0] == t[0];
        assert t[1..][..|t[1..]| - 1] == t[..|t| - 1][1..];
        FlipAfterInsideLine(t[0], t[1..]);
      } else {
        assert t[1..] == "";
      }
    }
  }

  lemma {:induction false} FlipAfterFlipsLines(lines: seq<string>)
    requires AreLines(lines)
    ensures FlipAfter('\n', Join(lines)) == Join(FlipLines(lines))
  {
    if lines != [] {
      var l := lines[0];
      FlipAfterFlipsLines(lines[1..]);
      FlipAfterConcat('\n', l, Join(lines[1..]));
      FlipAfterOneLine(l);
      assert FlipLines(lines)[1..] == FlipLines(lines[1..]);
      if l[|l| - 1] != '\n' {
        assert |lines| == 1 && Join(lines[1..]) == "";
      }
    }
  }

  lemma FlipAfterOneLine(l: string)
    requires IsLine(l)
    ensures FlipAfter('\n', l) == FlipLine(l)
  {
    assert FlipAfter('\n', l) == [FlipMarker(l[0])] + FlipAfter(l[0], l[1..]);
    if |l| > 1 {
      assert l[..|l| - 1][0] == l[0];
      assert l[1..][..|l[1..]| - 1] == l[..|l| - 1][1..];
      FlipAfterInsideLine(l[0], l[1..]);
    } else {
      assert l[1..] == "";
    }
  }

  lemma FlipAfterStep(prev: char, body: string, i: nat)
    requires i < |body|
    ensures FlipAfter(prev, body[i..]) ==
            [if prev == '\n' then FlipMarker(body[i]) else body[i]] + FlipAfter(body[i], body[i + 1..])
  {
    assert body[i..][1..] == body[i + 1..];
  }

  lemma NothingToFlip(body: string)
    ensures "" + FlipAfter('\n', body[0..]) == FlipAfter('\n', body)
  {
    assert body[0..] == body;
  }

  /** Flipping after every newline flips every line. */
  lemma FlipInOnePass(body: string, prev: char)
    ensures FlipAfter('\n', body) == Flip(body)
    ensures FlipAfter(prev, body[|body|..]) == ""
  {
    LinesRoundTrip(body);
    FlipAfterFlipsLines(LinesOf(body));
  }

  /** Exchanges the markers in one pass that remembers only the previous character. */
  method InvertBody(body: string) returns (invertedBody: string)
    ensures invertedBody == Flip(body)
  {
    hide Join, LinesOf, Flip, FlipAfter, FlipLines;
    invertedBody := "";
    NothingToFlip(body);
    var prev := '\n';
    var i := 0;
    while i < |body|
      invariant i <= |body|
      invariant invertedBody + FlipAfter(prev, body[i..]) == FlipAfter('\n', body)
    {
      FlipAfterStep(prev, body, i);
      if prev == '\n' && body[i] == '-' {
        invertedBody := invertedBody + "+";
      } else if prev == '\n' && body[i] == '+' {
        invertedBody := invertedBody + "-";
      } else {
        invertedBody := invertedBody + [body[i]];
      }
      prev := body[i];
      i := i + 1;
    }
    FlipInOnePass(body, prev);
  }
}
