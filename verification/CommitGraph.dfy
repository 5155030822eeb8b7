/** Commits, named by their content, and the histories they form. */
module CommitGraph {

  type Tree = map<string, string>

  /** A commit is identified by what it contains: equal commits have equal ids. */
  datatype Commit = Commit(parents: seq<Commit>, tree: Tree, message: string)

  /** c is a, or a is reachable from c through parents. */
  predicate Descends(c: Commit, a: Commit)
  {
    c == a || exists i :: 0 <= i < |c.parents| && Descends(c.parents[i], a)
  }

  /** From base to c every commit has exactly one parent. */
  predicate LinearSince(c: Commit, base: Commit)
  {
    c == base || (|c.parents| == 1 && LinearSince(c.parents[0], base))
  }

  function Height(c: Commit): nat
  {
    1 + Highest(c.parents)
  }

  function Highest(cs: seq<Commit>): (h: nat)
    ensures forall i :: 0 <= i < |cs| ==> Height(cs[i]) <= h
  {
    if cs == [] then 0
    else
      var h, rest := Height(cs[0]), Highest(cs[1..]);
      if h > rest then h else rest
  }

  /** Following first parents down from c. */
  function FirstParents(c: Commit): (chain: seq<Commit>)
    ensures chain != [] && chain[0] == c
    ensures forall i :: 0 <= i < |chain| - 1 ==> chain[i].parents != [] && chain[i].parents[0] == chain[i + 1]
    ensures chain[|chain| - 1].parents == []
  {
    if c.parents == [] then [c] else [c] + FirstParents(c.parents[0])
  }

  lemma {:induction false} AncestorsAreLower(c: Commit, a: Commit)
    requires Descends(c, a)
    ensures c == a || Height(a) < Height(c)
  {
    if c != a {
      var i :| 0 <= i < |c.parents| && Descends(c.parents[i], a);
      AncestorsAreLower(c.parents[i], a);
    }
  }

  /** Two commits that descend from each other are the same. */
  lemma DescentIsAntisymmetric(c: Commit, a: Commit)
    requires Descends(c, a) && Descends(a, c)
    ensures c == a
  {
    AncestorsAreLower(c, a);
    AncestorsAreLower(a, c);
  }

  lemma {:induction false} LinearDescends(c: Commit, base: Commit)
    requires LinearSince(c, base)
    ensures Descends(c, base)
  {
    if c != base {
      LinearDescends(c.parents[0], base);
    }
  }

  lemma {:induction false} LinearSinceIsTransitive(c: Commit, b: Commit, a: Commit)
    requires LinearSince(c, b) && LinearSince(b, a)
    ensures LinearSince(c, a)
  {
    if c != b {
      LinearSinceIsTransitive(c.parents[0], b, a);
    }
  }

  /** A linear history starts with the newer commits and ends with the whole older history. */
  lemma {:induction false} LinearExtendsHistory(c: Commit, base: Commit)
    requires LinearSince(c, base)
    ensures |FirstParents(base)| <= |FirstParents(c)|
    ensures FirstParents(c)[|FirstParents(c)| - |FirstParents(base)|..] == FirstParents(base)
  {
    if c != base {
      LinearExtendsHistory(c.parents[0], base);
    }
  }

  /** A commit built on onto can fast-forward a branch that has only grown linearly since onto
      exactly when the branch still is at onto, or already is at that very commit. */
  lemma FastForwardsOnlyFromBase(c: Commit, onto: Commit, head: Commit)
    requires c.parents == [onto] && LinearSince(head, onto)
    ensures Descends(c, head) <==> head == onto || head == c
  {
    LinearDescends(head, onto);
    if Descends(c, head) && c != head {
      DescentIsAntisymmetric(onto, head);
    }
    assert Descends(c.parents[0], onto);
  }
}
