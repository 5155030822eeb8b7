/** Splitting strings at a separator, joining them with one, and finding lines by prefix. */
module Splitting {
  import opened Wrappers

  /** The first position from i on where sep starts, or the length of s. */
  function IndexOf(s: string, sep: string, i: nat): (j: nat)
    requires i <= |s| && sep != ""
    ensures i <= j <= |s|
    ensures j < |s| ==> j + |sep| <= |s| && s[j..j + |sep|] == sep
    decreases |s| - i
  {
    if i == |s| then i
    else if i + |sep| <= |s| && s[i..i + |sep|] == sep then i
    else IndexOf(s, sep, i + 1)
  }

  function Split(s: string, sep: string): (parts: seq<string>)
    requires sep != ""
    ensures parts != []
    decreases |s|
  {
    var i := IndexOf(s, sep, 0);
    if i == |s| then [s] else [s[..i]] + Split(s[i + |sep|..], sep)
  }

  function JoinWith(parts: seq<string>, sep: string): string
  {
    if parts == [] then ""
    else if |parts| == 1 then parts[0]
    else parts[0] + sep + JoinWith(parts[1..], sep)
  }

  predicate Without(s: string, c: char)
  {
    forall i :: 0 <= i < |s| ==> s[i] != c
  }

  lemma {:induction false} IndexAfter(s: string, sep: string, t: string, rest: string, i: nat)
    requires sep != "" && Without(t, sep[0]) && i <= |t| && s == t + sep + rest
    ensures IndexOf(s, sep, i) == |t|
    decreases |t| - i
  {
    if i == |t| {
      assert s[i..i + |sep|] == sep;
    } else {
      assert s[i] == t[i];
      IndexAfter(s, sep, t, rest, i + 1);
    }
  }

  lemma {:induction false} IndexNowhere(s: string, sep: string, i: nat)
    requires sep != "" && Without(s, sep[0]) && i <= |s|
    ensures IndexOf(s, sep, i) == |s|
    decreases |s| - i
  {
    if i < |s| {
      IndexNowhere(s, sep, i + 1);
    }
  }

  /** Splitting undoes joining when no part contains the separator's character. */
  lemma {:induction false} SplitJoined(parts: seq<string>, sep: string)
    requires sep != "" && parts != [] && forall i :: 0 <= i < |parts| ==> Without(parts[i], sep[0])
    ensures Split(JoinWith(parts, sep), sep) == parts
  {
    var s := JoinWith(parts, sep);
    if |parts| == 1 {
      IndexNowhere(s, sep, 0);
    } else {
      var rest := JoinWith(parts[1..], sep);
      IndexAfter(s, sep, parts[0], rest, 0);
      assert s[..|parts[0]|] == parts[0] && s[|parts[0]| + |sep|..] == rest;
      SplitJoined(parts[1..], sep);
    }
  }

  /** The first line with this prefix. */
  function FirstWithPrefix(lines: seq<string>, prefix: string): (r: Option<string>)
    ensures r.Some? ==> prefix <= r.value
  {
    if lines == [] then None
    else if prefix <= lines[0] then Some(lines[0])
    else FirstWithPrefix(lines[1..], prefix)
  }

  lemma {:induction false} FirstOfConcat(ls: seq<string>, ms: seq<string>, prefix: string)
    ensures FirstWithPrefix(ls + ms, prefix) ==
            if FirstWithPrefix(ls, prefix).Some? then FirstWithPrefix(ls, prefix) else FirstWithPrefix(ms, prefix)
  {
    if ls == [] {
      assert ls + ms == ms;
    } else {
      assert (ls + ms)[1..] == ls[1..] + ms;
      FirstOfConcat(ls[1..], ms, prefix);
    }
  }

  lemma OtherPrefix(tag: string, rest: string, prefix: string, k: nat)
    requires k < |tag| && k < |prefix| && tag[k] != prefix[k]
    ensures !(prefix <= tag + rest)
  {
    assert (tag + rest)[k] == tag[k];
  }

  lemma OwnPrefix(tag: string, rest: string)
    ensures tag <= tag + rest && (tag + rest)[|tag|..] == rest
  {
  }
}
