/** The edit graph of two token sequences: longest common subsequences, edit
    scripts over the graph, and how far a point of the graph is from its end. */
module EditGraph {

  function Max(x: nat, y: nat): nat { if x < y then y else x }

  /** The usual recurrence for the length of a longest common subsequence. */
  function Lcs<T(==)>(xs: seq<T>, ys: seq<T>): nat
    decreases |xs| + |ys|
  {
    if xs == [] || ys == [] then 0
    else if xs[0] == ys[0] then 1 + Lcs(xs[1..], ys[1..])
    else Max(Lcs(xs[1..], ys), Lcs(xs, ys[1..]))
  }

  predicate Subsequence<T(==)>(zs: seq<T>, xs: seq<T>)
  {
    if zs == [] then true
    else if xs == [] then false
    else if zs[0] == xs[0] then Subsequence(zs[1..], xs[1..]) || Subsequence(zs, xs[1..])
    else Subsequence(zs, xs[1..])
  }

  /** Dropping the first token of one side costs the recurrence at most one match. */
  lemma {:induction false} LcsDropFirst<T>(xs: seq<T>, ys: seq<T>)
    ensures xs != [] ==> Lcs(xs[1..], ys) <= Lcs(xs, ys) <= 1 + Lcs(xs[1..], ys)
    ensures ys != [] ==> Lcs(xs, ys[1..]) <= Lcs(xs, ys) <= 1 + Lcs(xs, ys[1..])
    decreases |xs| + |ys|
  {
    if xs != [] && ys != [] {
      LcsDropFirst(xs[1..], ys);
      LcsDropFirst(xs, ys[1..]);
    }
  }

  /** No common subsequence is longer than the recurrence says. */
  lemma {:induction false} LcsBoundsCommonSubsequences<T>(zs: seq<T>, xs: seq<T>, ys: seq<T>)
    requires Subsequence(zs, xs) && Subsequence(zs, ys)
    ensures |zs| <= Lcs(xs, ys)
    decreases |xs| + |ys|
  {
    if zs == [] {
    } else if xs[0] == ys[0] {
      LcsDropFirst(xs, ys);
      LcsDropFirst(xs[1..], ys);
      if Subsequence(zs, xs[1..]) {
        LcsBoundsCommonSubsequences(zs, xs[1..], ys);
      } else if Subsequence(zs, ys[1..]) {
        LcsBoundsCommonSubsequences(zs, xs, ys[1..]);
      } else {
        LcsBoundsCommonSubsequences(zs[1..], xs[1..], ys[1..]);
      }
    } else if Subsequence(zs, xs[1..]) {
      LcsBoundsCommonSubsequences(zs, xs[1..], ys);
    } else {
      LcsBoundsCommonSubsequences(zs, xs, ys[1..]);
    }
  }

  /** A common subsequence of exactly that length exists. */
  lemma {:induction false} LcsIsAttained<T>(xs: seq<T>, ys: seq<T>) returns (zs: seq<T>)
    ensures Subsequence(zs, xs) && Subsequence(zs, ys) && |zs| == Lcs(xs, ys)
    decreases |xs| + |ys|
  {
    if xs == [] || ys == [] {
      zs := [];
    } else if xs[0] == ys[0] {
      var rest := LcsIsAttained(xs[1..], ys[1..]);
      zs := [xs[0]] + rest;
      assert zs[1..] == rest;
    } else if Lcs(xs[1..], ys) < Lcs(xs, ys[1..]) {
      zs := LcsIsAttained(xs, ys[1..]);
      SubsequenceOfLonger(zs, ys);
    } else {
      zs := LcsIsAttained(xs[1..], ys);
      SubsequenceOfLonger(zs, xs);
    }
  }

  lemma SubsequenceOfLonger<T>(zs: seq<T>, xs: seq<T>)
    requires xs != [] && Subsequence(zs, xs[1..])
    ensures Subsequence(zs, xs)
  {
  }

  /** The number of insertions and deletions that separate two sequences. */
  function Distance<T(==)>(xs: seq<T>, ys: seq<T>): int
  {
    |xs| + |ys| - 2 * Lcs(xs, ys)
  }

  /** The distance left from the point where a tokens of xs and b of ys are consumed. */
  function Left<T(==)>(xs: seq<T>, ys: seq<T>, a: int, b: int): int
    requires 0 <= a <= |xs| && 0 <= b <= |ys|
  {
    Distance(xs[a..], ys[b..])
  }

  /** At this point no match can be followed any further. */
  predicate Stuck<T(==)>(xs: seq<T>, ys: seq<T>, a: int, b: int)
    requires 0 <= a <= |xs| && 0 <= b <= |ys|
  {
    a < |xs| && b < |ys| ==> xs[a] != ys[b]
  }

  lemma LeftFacts<T>(xs: seq<T>, ys: seq<T>, a: int, b: int)
    requires 0 <= a <= |xs| && 0 <= b <= |ys|
    ensures Left(xs, ys, a, b) >= 0
    ensures a < |xs| ==> xs[a..][1..] == xs[a + 1..]
    ensures b < |ys| ==> ys[b..][1..] == ys[b + 1..]
    ensures a < |xs| ==> Left(xs, ys, a, b) <= 1 + Left(xs, ys, a + 1, b)
    ensures b < |ys| ==> Left(xs, ys, a, b) <= 1 + Left(xs, ys, a, b + 1)
  {
    LcsShort(xs[a..], ys[b..]);
    LcsDropFirst(xs[a..], ys[b..]);
  }

  lemma LeftAlongMatch<T>(xs: seq<T>, ys: seq<T>, a: int, b: int)
    requires 0 <= a < |xs| && 0 <= b < |ys| && xs[a] == ys[b]
    ensures Left(xs, ys, a, b) == Left(xs, ys, a + 1, b + 1)
  {
    assert xs[a..][1..] == xs[a + 1..] && ys[b..][1..] == ys[b + 1..];
  }

  lemma {:induction false} LcsShort<T>(xs: seq<T>, ys: seq<T>)
    ensures Lcs(xs, ys) <= |xs| && Lcs(xs, ys) <= |ys|
    decreases |xs| + |ys|
  {
    if xs != [] && ys != [] {
      LcsShort(xs[1..], ys[1..]);
      LcsShort(xs[1..], ys);
      LcsShort(xs, ys[1..]);
    }
  }

  lemma LcsDropBoth<T>(xs: seq<T>, ys: seq<T>)
    requires xs != [] && ys != []
    ensures Lcs(xs, ys) <= 1 + Lcs(xs[1..], ys[1..])
  {
    LcsDropFirst(xs[1..], ys);
    LcsDropFirst(xs, ys[1..]);
  }

  /** Moving on along a diagonal never takes a path away from the end. */
  lemma {:induction false} LeftDecreasesAlongDiagonal<T>(xs: seq<T>, ys: seq<T>, a: int, b: int, n: nat)
    requires 0 <= a && a + n <= |xs| && 0 <= b && b + n <= |ys|
    ensures Left(xs, ys, a + n, b + n) <= Left(xs, ys, a, b)
    decreases n
  {
    hide Lcs;
    if n > 0 {
      LeftFacts(xs, ys, a, b);
      LcsDropBoth(xs[a..], ys[b..]);
      LeftDecreasesAlongDiagonal(xs, ys, a + 1, b + 1, n - 1);
    }
  }

  /** From a stuck point one of the two single edits brings the end one step nearer. */
  lemma LeftFromStuckPoint<T>(xs: seq<T>, ys: seq<T>, a: int, b: int)
    requires 0 <= a <= |xs| && 0 <= b <= |ys|
    requires Stuck(xs, ys, a, b) && (a < |xs| || b < |ys|)
    ensures Left(xs, ys, a, b) >= 1
    ensures (a < |xs| && Left(xs, ys, a + 1, b) + 1 == Left(xs, ys, a, b))
         || (b < |ys| && Left(xs, ys, a, b + 1) + 1 == Left(xs, ys, a, b))
  {
    LeftFacts(xs, ys, a, b);
    if a < |xs| { LeftFacts(xs, ys, a + 1, b); }
    if b < |ys| { LeftFacts(xs, ys, a, b + 1); }
  }
}
