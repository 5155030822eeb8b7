/** The header of a file diff: its two names and the extended lines, and their inversion. */
module DiffHeader {
  import opened Wrappers
  import opened Splitting

  const DEV_NULL := "/dev/null"

  predicate HasName(name: string)
  {
    name == DEV_NULL || |name| >= 2
  }

  /** Replaces the two characters a name starts with by another prefix. */
  function CleanNameNewPrefix(name: string, prefix: string): string
    requires HasName(name)
  {
    if name == DEV_NULL then name else prefix + name[2..]
  }

  /** What the inversion needs of the extended lines not to fail. */
  predicate Invertible(origName: string, newName: string, extended: seq<string>)
  {
    && HasName(origName) && HasName(newName)
    && (FirstWithPrefix(extended, "rename from ").Some? ==> FirstWithPrefix(extended, "rename to ").Some?)
    && (FirstWithPrefix(extended, "index ").Some? ==>
          var tokens := Split(FirstWithPrefix(extended, "index ").value, " ");
          |tokens| >= 2 && |Split(tokens[1], "..")| >= 2)
  }

  function InvertDiffLine(origName: string, newName: string, isNew: bool, isDeleted: bool): string
    requires HasName(origName) && HasName(newName)
  {
    var invertedOrigName := if isDeleted then origName else newName;
    var invertedNewName := if isNew then newName else origName;
    "diff --git " + (CleanNameNewPrefix(invertedOrigName, "a/") + " " + CleanNameNewPrefix(invertedNewName, "b/"))
  }

  function InvertChange(extended: seq<string>): seq<string>
    requires FirstWithPrefix(extended, "rename from ").Some? ==> FirstWithPrefix(extended, "rename to ").Some?
  {
    var created := FirstWithPrefix(extended, "new file mode ");
    var deleted := FirstWithPrefix(extended, "deleted file mode ");
    var renameFrom := FirstWithPrefix(extended, "rename from ");
    if created.Some? then ["deleted" + created.value[3..]]
    else if deleted.Some? then ["new" + deleted.value[7..]]
    else if renameFrom.Some? then
      ["rename from " + FirstWithPrefix(extended, "rename to ").value[10..], "rename to " + renameFrom.value[12..]]
    else []
  }

  function InvertIndex(line: string): string
    requires |Split(line, " ")| >= 2 && |Split(Split(line, " ")[1], "..")| >= 2
  {
    var indexTokens := Split(line, " ");
    var hashTokens := Split(indexTokens[1], "..");
    JoinWith(indexTokens[1 := JoinWith([hashTokens[1], hashTokens[0]], "..")], " ")
  }

  function InvertExtended(origName: string, newName: string, extended: seq<string>): seq<string>
    requires Invertible(origName, newName, extended)
  {
    var isNew := FirstWithPrefix(extended, "new file mode ").Some?;
    var isDeleted := FirstWithPrefix(extended, "deleted file mode ").Some?;
    var similarity := FirstWithPrefix(extended, "similarity index");
    var index := FirstWithPrefix(extended, "index ");
    [InvertDiffLine(origName, newName, isNew, isDeleted)]
    + (if similarity.Some? then [similarity.value] else [])
    + InvertChange(extended)
    + (if index.Some? then [InvertIndex(index.value)] else [])
  }

  // ---------------------------------------------------------------- headers as git writes them

  datatype Change = Modified | Created(mode: string) | Deleted(mode: string) | Renamed

  datatype Index = Index(oldHash: string, newHash: string, rest: seq<string>)

  datatype Header = Header(oldPath: string, newPath: string, similarity: Option<string>, change: Change, index: Option<Index>)

  predicate Canonical(h: Header)
  {
    && (h.change.Created? || h.change.Deleted? ==> h.oldPath == h.newPath)
    && (h.index.Some? ==>
          && Without(h.index.value.oldHash, ' ') && Without(h.index.value.newHash, ' ')
          && Without(h.index.value.oldHash, '.') && Without(h.index.value.newHash, '.')
          && forall i :: 0 <= i < |h.index.value.rest| ==> Without(h.index.value.rest[i], ' '))
  }

  function OrigName(h: Header): string
  {
    if h.change.Created? then DEV_NULL else "a/" + h.oldPath
  }

  function NewName(h: Header): string
  {
    if h.change.Deleted? then DEV_NULL else "b/" + h.newPath
  }

  function DiffLines(h: Header): seq<string>
  {
    ["diff --git " + ("a/" + h.oldPath + " " + ("b/" + h.newPath))]
  }

  function SimilarityLines(h: Header): seq<string>
  {
    match h.similarity
    case None => []
    case Some(rest) => ["similarity index" + rest]
  }

  function ChangeLines(h: Header): seq<string>
  {
    match h.change
    case Modified => []
    case Created(mode) => ["new file mode " + mode]
    case Deleted(mode) => ["deleted file mode " + mode]
    case Renamed => ["rename from " + h.oldPath, "rename to " + h.newPath]
  }

  function IndexLine(index: Index): string
  {
    JoinWith(["index", index.oldHash + ".." + index.newHash] + index.rest, " ")
  }

  function IndexLines(h: Header): seq<string>
  {
    if h.index.None? then [] else [IndexLine(h.index.value)]
  }

  function Extended(h: Header): seq<string>
  {
    DiffLines(h) + SimilarityLines(h) + ChangeLines(h) + IndexLines(h)
  }

  /** The header of the opposite change. */
  function Opposite(h: Header): Header
  {
    Header(h.newPath, h.oldPath, h.similarity,
           match h.change
           case Modified => Modified
           case Created(mode) => Deleted(mode)
           case Deleted(mode) => Created(mode)
           case Renamed => Renamed,
           if h.index.None? then None
           else Some(Index(h.index.value.newHash, h.index.value.oldHash, h.index.value.rest)))
  }

  lemma OppositeTwice(h: Header)
    ensures Opposite(Opposite(h)) == h
    ensures Canonical(h) ==> Canonical(Opposite(h))
  {
  }

  /** Where each kind of line is found. */
  lemma FindInSegments(h: Header, prefix: string)
    ensures FirstWithPrefix(Extended(h), prefix) ==
            var d, s, c := FirstWithPrefix(DiffLines(h), prefix), FirstWithPrefix(SimilarityLines(h), prefix),
                           FirstWithPrefix(ChangeLines(h), prefix);
            if d.Some? then d else if s.Some? then s else if c.Some? then c else FirstWithPrefix(IndexLines(h), prefix)
  {
    FirstOfConcat(DiffLines(h), SimilarityLines(h), prefix);
    FirstOfConcat(DiffLines(h) + SimilarityLines(h), ChangeLines(h), prefix);
    FirstOfConcat(DiffLines(h) + SimilarityLines(h) + ChangeLines(h), IndexLines(h), prefix);
  }

  lemma IndexLineShape(index: Index) returns (rest: string)
    ensures IndexLine(index) == "index " + rest
  {
    var hashes := index.oldHash + ".." + index.newHash;
    var tokens := ["index", hashes] + index.rest;
    assert tokens[1..] == [hashes] + index.rest;
    rest := JoinWith(tokens[1..], " ");
    assert IndexLine(index) == "index" + " " + rest;
    assert "index" + " " + rest == "index " + rest;
  }

  lemma Differs(tag: string, rest: string, prefix: string, k: nat)
    requires k < |tag| && k < |prefix| && tag[k] != prefix[k]
    ensures FirstWithPrefix([tag + rest], prefix) == None
  {
    OtherPrefix(tag, rest, prefix, k);
    assert [tag + rest][1..] == [];
  }

  lemma NoRename(h: Header, prefix: string)
    requires prefix != "" && prefix[0] != 'r'
    ensures FirstWithPrefix(["rename from " + h.oldPath, "rename to " + h.newPath], prefix) == None
  {
    Differs("rename from ", h.oldPath, prefix, 0);
    Differs("rename to ", h.newPath, prefix, 0);
    FirstOfConcat(["rename from " + h.oldPath], ["rename to " + h.newPath], prefix);
    assert ["rename from " + h.oldPath] + ["rename to " + h.newPath] == ["rename from " + h.oldPath, "rename to " + h.newPath];
  }

  /** No line of the header but those of its change starts with this prefix. */
  lemma OnlyInChange(h: Header, prefix: string)
    requires |prefix| > 1 && prefix[0] != 's' && prefix[0] != 'i'
    requires prefix[0] != 'd' || prefix[1] != 'i'
    ensures FirstWithPrefix(Extended(h), prefix) == FirstWithPrefix(ChangeLines(h), prefix)
  {
    FindInSegments(h, prefix);
    Differs("diff --git ", "a/" + h.oldPath + " " + ("b/" + h.newPath), prefix, if prefix[0] != 'd' then 0 else 1);
    if h.similarity.Some? {
      Differs("similarity index", h.similarity.value, prefix, 0);
    }
    if h.index.Some? {
      var rest := IndexLineShape(h.index.value);
      Differs("index ", rest, prefix, 0);
    }
  }

  lemma FindCreated(h: Header)
    ensures FirstWithPrefix(Extended(h), "new file mode ") ==
            if h.change.Created? then Some("new file mode " + h.change.mode) else None
  {
    OnlyInChange(h, "new file mode ");
    match h.change
    case Modified =>
    case Created(mode) => OwnPrefix("new file mode ", mode);
    case Deleted(mode) => Differs("deleted file mode ", mode, "new file mode ", 0);
    case Renamed =>
      NoRename(h, "new file mode ");
  }

  lemma FindDeleted(h: Header)
    ensures FirstWithPrefix(Extended(h), "deleted file mode ") ==
            if h.change.Deleted? then Some("deleted file mode " + h.change.mode) else None
  {
    OnlyInChange(h, "deleted file mode ");
    match h.change
    case Modified =>
    case Created(mode) => Differs("new file mode ", mode, "deleted file mode ", 0);
    case Deleted(mode) => OwnPrefix("deleted file mode ", mode);
    case Renamed =>
      NoRename(h, "deleted file mode ");
  }

  lemma FindRenamed(h: Header)
    ensures FirstWithPrefix(Extended(h), "rename from ") == if h.change.Renamed? then Some("rename from " + h.oldPath) else None
    ensures FirstWithPrefix(Extended(h), "rename to ") == if h.change.Renamed? then Some("rename to " + h.newPath) else None
  {
    OnlyInChange(h, "rename from ");
    OnlyInChange(h, "rename to ");
    match h.change
    case Modified =>
    case Created(mode) =>
      Differs("new file mode ", mode, "rename from ", 0);
      Differs("new file mode ", mode, "rename to ", 0);
    case Deleted(mode) =>
      Differs("deleted file mode ", mode, "rename from ", 0);
      Differs("deleted file mode ", mode, "rename to ", 0);
    case Renamed =>
      OwnPrefix("rename from ", h.oldPath);
      OwnPrefix("rename to ", h.newPath);
      assert "rename from "[7] == 'f' && "rename to "[7] == 't';
      OtherPrefix("rename from ", h.oldPath, "rename to ", 7);
  }

  lemma FindSimilarity(h: Header)
    ensures FirstWithPrefix(Extended(h), "similarity index") ==
            if h.similarity.Some? then Some("similarity index" + h.similarity.value) else None
  {
    FindInSegments(h, "similarity index");
    Differs("diff --git ", "a/" + h.oldPath + " " + ("b/" + h.newPath), "similarity index", 0);
    ChangeLinesLack(h, "similarity index");
    if h.similarity.Some? {
      OwnPrefix("similarity index", h.similarity.value);
    } else if h.index.Some? {
      var rest := IndexLineShape(h.index.value);
      Differs("index ", rest, "similarity index", 0);
    }
  }

  lemma FindIndex(h: Header)
    ensures FirstWithPrefix(Extended(h), "index ") == if h.index.Some? then Some(IndexLine(h.index.value)) else None
  {
    FindInSegments(h, "index ");
    Differs("diff --git ", "a/" + h.oldPath + " " + ("b/" + h.newPath), "index ", 0);
    ChangeLinesLack(h, "index ");
    if h.similarity.Some? {
      Differs("similarity index", h.similarity.value, "index ", 0);
    }
    if h.index.Some? {
      var rest := IndexLineShape(h.index.value);
      OwnPrefix("index ", rest);
    }
  }

  lemma ChangeLinesLack(h: Header, prefix: string)
    requires prefix != "" && prefix[0] != 'n' && prefix[0] != 'd' && prefix[0] != 'r'
    ensures FirstWithPrefix(ChangeLines(h), prefix) == None
  {
    match h.change
    case Modified =>
    case Created(mode) => Differs("new file mode ", mode, prefix, 0);
    case Deleted(mode) => Differs("deleted file mode ", mode, prefix, 0);
    case Renamed =>
      NoRename(h, prefix);
  }

  lemma InvertIndexLine(index: Index)
    requires Canonical(Header("", "", None, Modified, Some(index)))
    ensures |Split(IndexLine(index), " ")| >= 2 && |Split(Split(IndexLine(index), " ")[1], "..")| >= 2
    ensures InvertIndex(IndexLine(index)) == IndexLine(Index(index.newHash, index.oldHash, index.rest))
  {
    var hashes := [index.oldHash, index.newHash];
    var tokens := ["index", index.oldHash + ".." + index.newHash] + index.rest;
    assert JoinWith(hashes, "..") == index.oldHash + ".." + index.newHash;
    SplitJoined(tokens, " ");
    SplitJoined(hashes, "..");
    assert JoinWith([index.newHash, index.oldHash], "..") == index.newHash + ".." + index.oldHash;
    assert tokens[1 := index.newHash + ".." + index.oldHash] == ["index", index.newHash + ".." + index.oldHash] + index.rest;
  }

  lemma InvertNames(h: Header)
    requires Canonical(h)
    ensures HasName(OrigName(h)) && HasName(NewName(h))
    ensures CleanNameNewPrefix(NewName(h), "a/") == OrigName(Opposite(h))
    ensures CleanNameNewPrefix(OrigName(h), "b/") == NewName(Opposite(h))
    ensures [InvertDiffLine(OrigName(h), NewName(h), h.change.Created?, h.change.Deleted?)] == DiffLines(Opposite(h))
  {
    NotDevNull("a/", h.oldPath);
    NotDevNull("b/", h.newPath);
  }

  lemma NotDevNull(prefix: string, path: string)
    requires |prefix| == 2 && prefix[0] != '/'
    ensures prefix + path != DEV_NULL && (prefix + path)[2..] == path
  {
    assert (prefix + path)[0] == prefix[0] && DEV_NULL[0] == '/';
  }

  lemma InvertChangeLines(h: Header)
    requires Canonical(h)
    ensures FirstWithPrefix(Extended(h), "rename from ").Some? ==> FirstWithPrefix(Extended(h), "rename to ").Some?
    ensures InvertChange(Extended(h)) == ChangeLines(Opposite(h))
  {
    FindCreated(h);
    FindDeleted(h);
    FindRenamed(h);
    hide Extended;
    assert "new" + " file mode " == "new file mode ";
    assert "deleted" + " file mode " == "deleted file mode ";
    match h.change
    case Modified =>
    case Created(mode) => Retag("new", "deleted", " file mode ", mode);
    case Deleted(mode) => Retag("deleted", "new", " file mode ", mode);
    case Renamed =>
      OwnPrefix("rename from ", h.oldPath);
      OwnPrefix("rename to ", h.newPath);
  }

  lemma Retag(tag: string, other: string, s: string, t: string)
    ensures other + (tag + s + t)[|tag|..] == other + s + t
  {
    assert (tag + s + t)[|tag|..] == s + t;
    assert other + (s + t) == other + s + t;
  }

  /** Inverting the header of a change yields the header of the opposite change. */
  lemma InvertHeader(h: Header)
    requires Canonical(h)
    ensures Invertible(OrigName(h), NewName(h), Extended(h))
    ensures InvertExtended(OrigName(h), NewName(h), Extended(h)) == Extended(Opposite(h))
  {
    InvertNames(h);
    FindCreated(h);
    FindDeleted(h);
    FindSimilarity(h);
    FindIndex(h);
    InvertChangeLines(h);
    if h.index.Some? {
      InvertIndexLine(h.index.value);
    }
  }
}
