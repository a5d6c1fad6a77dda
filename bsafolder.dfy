/** The folder tree of an archive. Folders live in an arena, a sequence of
    nodes addressed by integer handles: the root is node 0, a node's parent
    is a smaller handle, and its subfolders are larger ones. Files are held
    by value in the folder that owns them. */
module BsaFolder {
  import opened BsaTypes
  import opened Bits
  import opened FileHash
  import opened BsaFile

  /** Handle of the root folder. */
  const Root: nat := 0

  /** ULONG_MAX as a 32-bit value: the offset of a folder not read from an
      archive. */
  const NoOffset: U32 := 0xFFFF_FFFF

  /** One folder. parent is the handle of the enclosing folder, None only
      for the root; subFolders are handles in insertion order. */
  datatype Folder = Folder(
    parent: Option<nat>,
    nameHash: U64,
    name: seq<Byte>,
    fileCount: U32,
    offset: U32,
    subFolders: seq<nat>,
    files: seq<File>,
    offsetWrite: U32)

  /** The folder with a new offset recorded for it. */
  function WithOffset(f: Folder, offset: U32): Folder
  {
    f.(offsetWrite := offset)
  }

  /** The offset writeData records for a data block written at pos: pos
      plus fileNamesLength, as a 32-bit value. */
  function Offset(pos: nat, fileNamesLength: U32): U32
  {
    (pos + fileNamesLength) % Word
  }

  /** The folder with its files replaced. */
  function WithFiles(f: Folder, files: seq<File>): Folder
  {
    f.(files := files)
  }

  /** Folder(): no parent, an empty name and its hash, no files, and the
      offset ULONG_MAX. */
  function Blank(): (f: Folder)
    ensures f.parent.None? && f.name == [] && f.nameHash == BsaHash([])
    ensures f.subFolders == [] && f.files == [] && f.fileCount == 0 && f.offset == NoOffset
  {
    EmptyNameHash();
    Folder(None, 0, [], 0, NoOffset, [], [], 0)
  }

  // ---------------------------------------------------------------------
  // Shape of the arena

  /** Every subfolder handle lies after its folder and inside the arena. */
  predicate Linked(t: seq<Folder>)
  {
    forall i, j :: 0 <= i < |t| && 0 <= j < |t[i].subFolders| ==>
      i < t[i].subFolders[j] < |t|
  }

  /** Every parent handle lies before its folder. */
  predicate Rooted(t: seq<Folder>)
  {
    forall c {:trigger t[c].parent} :: 0 <= c < |t| && t[c].parent.Some? ==> t[c].parent.value < c
  }

  /** The arena is a tree rooted at node 0: only the root lacks a parent,
      every other node is listed among its parent's subfolders, and every
      listed subfolder names its folder as parent. */
  predicate Shaped(t: seq<Folder>)
  {
    && |t| > 0
    && t[Root].parent.None?
    && Linked(t)
    && Rooted(t)
    && (forall i, j :: 0 <= i < |t| && 0 <= j < |t[i].subFolders| ==>
          t[t[i].subFolders[j]].parent == Some(i))
    && (forall c {:trigger t[c].parent} :: 0 < c < |t| ==>
          t[c].parent.Some? && c in t[t[c].parent.value].subFolders)
  }

  /** Handles that all lie after i and inside the arena. */
  predicate After(t: seq<Folder>, i: nat, cs: seq<nat>)
  {
    forall k :: 0 <= k < |cs| ==> i < cs[k] < |t|
  }

  /** Handles that all lie inside the arena. */
  predicate Handles(t: seq<Folder>, hs: seq<nat>)
  {
    forall k :: 0 <= k < |hs| ==> hs[k] < |t|
  }

  lemma SubFoldersAfter(t: seq<Folder>, i: nat)
    requires Linked(t) && i < |t|
    ensures After(t, i, t[i].subFolders)
  {
  }

  lemma MembersAreHandles(t: seq<Folder>, hs: seq<nat>)
    requires forall h <- hs :: h < |t|
    ensures Handles(t, hs)
  {
    forall k | 0 <= k < |hs|
      ensures hs[k] < |t|
    {
      assert hs[k] in hs;
    }
  }

  // ---------------------------------------------------------------------
  // Paths

  /** a + "\" + b, or b alone when a is empty: how getFullPath joins. */
  function Join(a: seq<Byte>, b: seq<Byte>): seq<Byte>
  {
    if |a| != 0 then a + [Backslash] + b else b
  }

  /** getFullPath: the root is "", a child of a folder with an empty path
      is its name, any other folder is its parent's path, "\" and its name. */
  function FullPath(t: seq<Folder>, i: nat): (r: seq<Byte>)
    requires Rooted(t) && i < |t|
    decreases i
  {
    match t[i].parent
    case None => []
    case Some(p) => Join(FullPath(t, p), t[i].name)
  }

  /** getFilePath: the owning folder's path, "\" and the file's name. */
  function FilePath(t: seq<Folder>, f: File): (r: seq<Byte>)
    requires Rooted(t) && f.folder.Some? && f.folder.value < |t|
    ensures |r| == |FullPath(t, f.folder.value)| + 1 + |f.name|
    ensures r[..|r| - |f.name|] == FullPath(t, f.folder.value) + [Backslash]
    ensures r[|r| - |f.name|..] == f.name
  {
    FullPath(t, f.folder.value) + [Backslash] + f.name
  }

  // ---------------------------------------------------------------------
  // Traversals

  /** collectFiles: the folder's own files, then each subfolder's files
      in order. */
  function FilesFrom(t: seq<Folder>, i: nat): seq<File>
    requires Linked(t) && i < |t|
    decreases |t| - i, 1
  {
    SubFoldersAfter(t, i);
    t[i].files + FilesOf(t, i, t[i].subFolders)
  }

  /** The files under the subfolders cs of folder i, in order. */
  function FilesOf(t: seq<Folder>, i: nat, cs: seq<nat>): seq<File>
    requires Linked(t) && i < |t| && After(t, i, cs)
    decreases |t| - i, 0, |cs|
  {
    if cs == [] then []
    else FilesOf(t, i, cs[..|cs| - 1]) + FilesFrom(t, cs[|cs| - 1])
  }

  /** countFiles: the subfolders' counts and the own file count, summed in
      a 32-bit unsigned int. */
  function CountFiles(t: seq<Folder>, i: nat): (r: nat)
    requires Linked(t) && i < |t|
    ensures r < Word
    decreases |t| - i, 1
  {
    SubFoldersAfter(t, i);
    (CountOf(t, i, t[i].subFolders) + |t[i].files|) % Word
  }

  /** The running sum of countFiles over the subfolders cs. */
  function CountOf(t: seq<Folder>, i: nat, cs: seq<nat>): (r: nat)
    requires Linked(t) && i < |t| && After(t, i, cs)
    ensures r < Word
    decreases |t| - i, 0, |cs|
  {
    if cs == [] then 0
    else (CountOf(t, i, cs[..|cs| - 1]) + CountFiles(t, cs[|cs| - 1])) % Word
  }

  /** collectFolders: the descendants of folder i in pre-order, keeping
      those that hold at least one file. */
  function FoldersBelow(t: seq<Folder>, i: nat): seq<nat>
    requires Linked(t) && i < |t|
    decreases |t| - i, 1
  {
    SubFoldersAfter(t, i);
    FoldersOf(t, i, t[i].subFolders)
  }

  /** The folders collectFolders keeps from the subfolders cs and below. */
  function FoldersOf(t: seq<Folder>, i: nat, cs: seq<nat>): seq<nat>
    requires Linked(t) && i < |t| && After(t, i, cs)
    decreases |t| - i, 0, |cs|
  {
    if cs == [] then []
    else
      var c := cs[|cs| - 1];
      FoldersOf(t, i, cs[..|cs| - 1])
      + (if |t[c].files| != 0 then [c] else [])
      + FoldersBelow(t, c)
  }

  /** collectFolderNames: the folder's own path if it holds files, then
      the names below each subfolder. */
  function FolderNames(t: seq<Folder>, i: nat): seq<seq<Byte>>
    requires Linked(t) && Rooted(t) && i < |t|
    decreases |t| - i, 1
  {
    SubFoldersAfter(t, i);
    (if |t[i].files| != 0 then [FullPath(t, i)] else []) + NamesOf(t, i, t[i].subFolders)
  }

  /** The folder names below the subfolders cs. */
  function NamesOf(t: seq<Folder>, i: nat, cs: seq<nat>): seq<seq<Byte>>
    requires Linked(t) && Rooted(t) && i < |t| && After(t, i, cs)
    decreases |t| - i, 0, |cs|
  {
    if cs == [] then []
    else NamesOf(t, i, cs[..|cs| - 1]) + FolderNames(t, cs[|cs| - 1])
  }

  /** The full paths of the folders hs. */
  function Paths(t: seq<Folder>, hs: seq<nat>): (r: seq<seq<Byte>>)
    requires Rooted(t) && Handles(t, hs)
    ensures |r| == |hs|
  {
    if hs == [] then [] else Paths(t, hs[..|hs| - 1]) + [FullPath(t, hs[|hs| - 1])]
  }

  /** The names of the files fs: collectFileNames over collectFiles. */
  function FileNames(fs: seq<File>): (r: seq<seq<Byte>>)
    ensures |r| == |fs|
    ensures forall k :: 0 <= k < |fs| ==> r[k] == fs[k].name
  {
    seq(|fs|, k requires 0 <= k < |fs| => fs[k].name)
  }

  // ---------------------------------------------------------------------
  // Properties of the traversals

  /** countFiles is the number of files collectFiles lists, modulo 2^32. */
  lemma {:induction false} CountFilesTotal(t: seq<Folder>, i: nat)
    requires Linked(t) && i < |t|
    ensures CountFiles(t, i) == |FilesFrom(t, i)| % Word
    decreases |t| - i, 1
  {
    SubFoldersAfter(t, i);
    CountOfTotal(t, i, t[i].subFolders);
  }

  lemma {:induction false} CountOfTotal(t: seq<Folder>, i: nat, cs: seq<nat>)
    requires Linked(t) && i < |t| && After(t, i, cs)
    ensures CountOf(t, i, cs) == |FilesOf(t, i, cs)| % Word
    decreases |t| - i, 0, |cs|
  {
    if cs != [] {
      var c := cs[|cs| - 1];
      CountOfTotal(t, i, cs[..|cs| - 1]);
      CountFilesTotal(t, c);
      SumMod(|FilesOf(t, i, cs[..|cs| - 1])|, |FilesFrom(t, c)|);
    }
  }

  lemma SumMod(a: nat, b: nat)
    ensures (a % Word + b % Word) % Word == (a + b) % Word
  {
  }

  /** collectFolders lists only strict descendants that hold files; in
      particular the root's own files are never collected. */
  lemma {:induction false} FoldersBelowHoldFiles(t: seq<Folder>, i: nat)
    requires Linked(t) && i < |t|
    ensures forall h <- FoldersBelow(t, i) :: i < h < |t| && |t[h].files| != 0
    decreases |t| - i, 1
  {
    SubFoldersAfter(t, i);
    FoldersOfHoldFiles(t, i, t[i].subFolders);
  }

  lemma {:induction false} FoldersOfHoldFiles(t: seq<Folder>, i: nat, cs: seq<nat>)
    requires Linked(t) && i < |t| && After(t, i, cs)
    ensures forall h <- FoldersOf(t, i, cs) :: i < h < |t| && |t[h].files| != 0
    decreases |t| - i, 0, |cs|
  {
    if cs != [] {
      var c := cs[|cs| - 1];
      FoldersOfHoldFiles(t, i, cs[..|cs| - 1]);
      FoldersBelowHoldFiles(t, c);
    }
  }

  /** collectFolders lists exactly the strict descendants of folder i
      that hold at least one file. */
  lemma FoldersBelowExactly(t: seq<Folder>, i: nat, h: nat)
    requires Shaped(t) && i < |t| && h < |t|
    ensures h in FoldersBelow(t, i) <==> h != i && Under(t, i, h) && |t[h].files| != 0
  {
    FoldersBelowHoldFiles(t, i);
    FoldersBelowUnder(t, i);
    if h != i && Under(t, i, h) && |t[h].files| != 0 {
      DescendantListed(t, i, h);
    }
  }

  /** Every folder collectFolders lists from i lies strictly below i. */
  lemma {:induction false} FoldersBelowUnder(t: seq<Folder>, i: nat)
    requires Shaped(t) && i < |t|
    ensures forall h <- FoldersBelow(t, i) :: i < h < |t| && Under(t, i, h)
    decreases |t| - i, 1
  {
    SubFoldersAfter(t, i);
    FoldersOfUnder(t, i, t[i].subFolders);
  }

  lemma {:induction false} FoldersOfUnder(t: seq<Folder>, i: nat, cs: seq<nat>)
    requires Shaped(t) && i < |t| && After(t, i, cs)
    requires forall k :: 0 <= k < |cs| ==> t[cs[k]].parent == Some(i)
    ensures forall h <- FoldersOf(t, i, cs) :: i < h < |t| && Under(t, i, h)
    decreases |t| - i, 0, |cs|
  {
    if cs != [] {
      var c := cs[|cs| - 1];
      FoldersOfUnder(t, i, cs[..|cs| - 1]);
      FoldersBelowUnder(t, c);
      assert Under(t, i, c) by {
        assert t[c].parent == Some(i);
      }
      forall h <- FoldersBelow(t, c)
        ensures Under(t, i, h)
      {
        UnderParent(t, c, i, h);
      }
    }
  }

  /** A folder strictly below i is listed from i when it holds files, and
      so is everything listed from it. */
  lemma {:induction false} DescendantListed(t: seq<Folder>, i: nat, h: nat)
    requires Shaped(t) && i < |t| && h < |t| && h != i && Under(t, i, h)
    ensures |t[h].files| != 0 ==> h in FoldersBelow(t, i)
    ensures forall y <- FoldersBelow(t, h) :: y in FoldersBelow(t, i)
    decreases h
  {
    var p := t[h].parent.value;
    assert h in t[p].subFolders;
    var k :| 0 <= k < |t[p].subFolders| && t[p].subFolders[k] == h;
    SubFoldersAfter(t, p);
    ChildListed(t, p, t[p].subFolders, k);
    if p != i {
      DescendantListed(t, i, p);
    }
  }

  /** Subfolder k of cs is listed among the folders kept from cs when it
      holds files, and so is everything listed from it. */
  lemma {:induction false} ChildListed(t: seq<Folder>, p: nat, cs: seq<nat>, k: nat)
    requires Linked(t) && p < |t| && After(t, p, cs) && k < |cs|
    ensures |t[cs[k]].files| != 0 ==> cs[k] in FoldersOf(t, p, cs)
    ensures forall y <- FoldersBelow(t, cs[k]) :: y in FoldersOf(t, p, cs)
    decreases |cs|
  {
    if k < |cs| - 1 {
      ChildListed(t, p, cs[..|cs| - 1], k);
    }
  }

  /** collectFolderNames yields the folder's own path when it holds files,
      then the paths of the folders collectFolders lists. */
  lemma {:induction false} FolderNamesArePaths(t: seq<Folder>, i: nat)
    requires Linked(t) && Rooted(t) && i < |t|
    ensures Handles(t, FoldersBelow(t, i))
    ensures FolderNames(t, i)
      == (if |t[i].files| != 0 then [FullPath(t, i)] else []) + Paths(t, FoldersBelow(t, i))
    decreases |t| - i, 1
  {
    SubFoldersAfter(t, i);
    FoldersBelowHoldFiles(t, i);
    MembersAreHandles(t, FoldersBelow(t, i));
    NamesOfArePaths(t, i, t[i].subFolders);
  }

  lemma {:induction false} NamesOfArePaths(t: seq<Folder>, i: nat, cs: seq<nat>)
    requires Linked(t) && Rooted(t) && i < |t| && After(t, i, cs)
    ensures Handles(t, FoldersOf(t, i, cs))
    ensures NamesOf(t, i, cs) == Paths(t, FoldersOf(t, i, cs))
    decreases |t| - i, 0, |cs|
  {
    if cs != [] {
      var c := cs[|cs| - 1];
      var front := FoldersOf(t, i, cs[..|cs| - 1]);
      var own: seq<nat> := if |t[c].files| != 0 then [c] else [];
      var below := FoldersBelow(t, c);
      NamesOfArePaths(t, i, cs[..|cs| - 1]);
      FolderNamesArePaths(t, c);
      assert FolderNames(t, c) == Paths(t, own) + Paths(t, below);
      assert FoldersOf(t, i, cs) == front + own + below;
      PathsAppend3(t, front, own, below);
    }
  }

  lemma PathsAppend3(t: seq<Folder>, a: seq<nat>, b: seq<nat>, c: seq<nat>)
    requires Rooted(t) && Handles(t, a) && Handles(t, b) && Handles(t, c)
    ensures Handles(t, a + b + c)
    ensures Paths(t, a + b + c) == Paths(t, a) + (Paths(t, b) + Paths(t, c))
  {
    PathsAppend(t, a, b);
    PathsAppend(t, a + b, c);
  }

  lemma {:induction false} PathsAppend(t: seq<Folder>, a: seq<nat>, b: seq<nat>)
    requires Rooted(t) && Handles(t, a) && Handles(t, b)
    ensures Handles(t, a + b)
    ensures Paths(t, a + b) == Paths(t, a) + Paths(t, b)
    decreases |b|
  {
    if b == [] {
      assert a + b == a;
    } else {
      var n := |b| - 1;
      assert (a + b)[..|a + b| - 1] == a + b[..n];
      PathsAppend(t, a, b[..n]);
    }
  }

  // ---------------------------------------------------------------------
  // Placing folders by path

  /** '\' or '/', the separators addFolderInt splits on. */
  predicate IsSep(b: Byte)
  {
    b == Backslash || b == Slash
  }

  predicate NoSeparator(s: seq<Byte>)
  {
    forall q :: 0 <= q < |s| ==> !IsSep(s[q])
  }

  /** The path with every '/' replaced by '\'. */
  function Backslashed(s: seq<Byte>): (r: seq<Byte>)
    ensures |r| == |s|
    ensures forall q :: 0 <= q < |s| ==> r[q] == if s[q] == Slash then Backslash else s[q]
  {
    seq(|s|, q requires 0 <= q < |s| => if s[q] == Slash then Backslash else s[q])
  }

  /** A path of one or more non-empty components. */
  predicate CleanPath(s: seq<Byte>)
  {
    && |s| > 0 && !IsSep(s[0]) && !IsSep(s[|s| - 1])
    && forall q :: 0 <= q < |s| - 1 && IsSep(s[q]) ==> !IsSep(s[q + 1])
  }

  /** No folder name holds a '/'. */
  predicate NoSlashNames(t: seq<Folder>)
  {
    forall x :: 0 <= x < |t| ==> Slash !in t[x].name
  }

  /** name continues prefix with a separator: the test addFolderInt applies
      to each subfolder. */
  predicate Descends(prefix: seq<Byte>, name: seq<Byte>)
  {
    |name| > |prefix| && name[..|prefix|] == prefix && IsSep(name[|prefix|])
  }

  /** The index of the first of the subfolders cs whose name name descends
      from. */
  function FirstMatch(t: seq<Folder>, cs: seq<nat>, name: seq<Byte>): (r: Option<nat>)
    requires Handles(t, cs)
    ensures r.Some? ==> r.value < |cs| && Descends(t[cs[r.value]].name, name)
    ensures r.Some? ==> forall m :: 0 <= m < r.value ==> !Descends(t[cs[m]].name, name)
    ensures r.None? ==> forall m :: 0 <= m < |cs| ==> !Descends(t[cs[m]].name, name)
    decreases |cs|
  {
    if cs == [] then None
    else if Descends(t[cs[0]].name, name) then Some(0)
    else match FirstMatch(t, cs[1..], name)
      case None => None
      case Some(m) => Some(m + 1)
  }

  /** FirstMatch is the only index with its two properties. */
  lemma FirstMatchUnique(t: seq<Folder>, cs: seq<nat>, name: seq<Byte>, r: Option<nat>)
    requires Handles(t, cs)
    requires r.Some? ==> r.value < |cs| && Descends(t[cs[r.value]].name, name)
    requires r.Some? ==> forall m :: 0 <= m < r.value ==> !Descends(t[cs[m]].name, name)
    requires r.None? ==> forall m :: 0 <= m < |cs| ==> !Descends(t[cs[m]].name, name)
    ensures FirstMatch(t, cs, name) == r
  {
    var f := FirstMatch(t, cs, name);
    if f.Some? && r.Some? {
      assert !(f.value < r.value) && !(r.value < f.value);
    }
  }

  /** find_first_of("\\/"): the first separator's index, if any. */
  function FirstSeparator(s: seq<Byte>): (r: Option<nat>)
    ensures r.Some? ==> r.value < |s| && IsSep(s[r.value]) && NoSeparator(s[..r.value])
    ensures r.None? ==> NoSeparator(s)
  {
    if s == [] then None
    else if IsSep(s[0]) then Some(0)
    else match FirstSeparator(s[1..])
      case None => None
      case Some(q) => Some(q + 1)
  }

  /** u extends t: the old folders keep every field but their subfolder
      lists, which only grow at the end. */
  predicate Grown(t: seq<Folder>, u: seq<Folder>)
  {
    && |t| <= |u|
    && forall x :: 0 <= x < |t| ==>
         u[x] == t[x].(subFolders := u[x].subFolders) && t[x].subFolders <= u[x].subFolders
  }

  /** x lies in the subtree of a. */
  predicate Under(t: seq<Folder>, a: nat, x: nat)
    requires Rooted(t) && x < |t|
    decreases x
  {
    x == a || (t[x].parent.Some? && Under(t, a, t[x].parent.value))
  }

  lemma GrownTrans(t: seq<Folder>, u: seq<Folder>, v: seq<Folder>)
    requires Grown(t, u) && Grown(u, v)
    ensures Grown(t, v)
  {
  }

  /** Growing the arena leaves the paths of the old folders alone. */
  lemma {:induction false} GrownPath(t: seq<Folder>, u: seq<Folder>, x: nat)
    requires Rooted(t) && Rooted(u) && Grown(t, u) && x < |t|
    ensures FullPath(u, x) == FullPath(t, x)
    decreases x
  {
    if t[x].parent.Some? {
      GrownPath(t, u, t[x].parent.value);
    }
  }

  /** Growing the arena leaves the path of a file of an old folder alone. */
  lemma FilePathGrown(t: seq<Folder>, u: seq<Folder>, f: File)
    requires Rooted(t) && Rooted(u) && Grown(t, u) && f.folder.Some? && f.folder.value < |t|
    ensures FilePath(u, f) == FilePath(t, f)
  {
    GrownPath(t, u, f.folder.value);
  }

  /** Growing the arena leaves the subtrees of the old folders alone. */
  lemma {:induction false} GrownUnder(t: seq<Folder>, u: seq<Folder>, a: nat, x: nat)
    requires Rooted(t) && Rooted(u) && Grown(t, u) && x < |t|
    ensures Under(u, a, x) == Under(t, a, x)
    decreases x
  {
    if t[x].parent.Some? {
      GrownUnder(t, u, a, t[x].parent.value);
    }
  }

  /** The subtree of a child lies in the subtree of its parent. */
  lemma {:induction false} UnderParent(t: seq<Folder>, c: nat, i: nat, x: nat)
    requires Rooted(t) && c < |t| && x < |t| && t[c].parent == Some(i) && Under(t, c, x)
    ensures Under(t, i, x)
    decreases x
  {
    if x != c {
      UnderParent(t, c, i, t[x].parent.value);
    }
  }

  lemma JoinAssoc(p: seq<Byte>, a: seq<Byte>, r: seq<Byte>)
    requires a != []
    ensures Join(Join(p, a), r) == Join(p, a + [Backslash] + r)
  {
  }

  /** A clean path split at a separator q: a non-empty component before
      it and a clean remainder after it. */
  lemma SplitClean(name: seq<Byte>, q: nat)
    requires CleanPath(name) && q < |name| && IsSep(name[q])
    ensures q > 0 && CleanPath(name[q + 1..])
  {
    var rest := name[q + 1..];
    assert q < |name| - 1;
    assert rest[0] == name[q + 1];
    assert rest[|rest| - 1] == name[|name| - 1];
    forall m | 0 <= m < |rest| - 1 && IsSep(rest[m])
      ensures !IsSep(rest[m + 1])
    {
      assert rest[m] == name[q + 1 + m] && rest[m + 1] == name[q + 1 + m + 1];
    }
  }

  /** Replacing '/' distributes over a split at a separator q when the
      component before it holds no '/'. */
  lemma SplitBackslashed(name: seq<Byte>, q: nat)
    requires q < |name| && IsSep(name[q]) && Slash !in name[..q]
    ensures Backslashed(name) == name[..q] + [Backslash] + Backslashed(name[q + 1..])
  {
    var l, r := Backslashed(name), name[..q] + [Backslash] + Backslashed(name[q + 1..]);
    assert |l| == |r|;
    forall m | 0 <= m < |l|
      ensures l[m] == r[m]
    {
      if m < q {
        assert name[m] == name[..q][m];
        assert r[m] == name[..q][m];
      } else if m > q {
        assert r[m] == Backslashed(name[q + 1..])[m - q - 1];
      }
    }
  }

  lemma NoSlashUnchanged(s: seq<Byte>)
    requires Slash !in s
    ensures Backslashed(s) == s
  {
  }

  /** A new folder named name under folder i, as addFolder(folderName)
      and the dummy folders of addFolderInt build it. */
  function Child(i: nat, name: seq<Byte>): (f: Folder)
    ensures f == Blank().(parent := Some(i), name := name)
  {
    Blank().(parent := Some(i), name := name)
  }

  /** u is a tree grown from t by new folders from |t| on, k among them:
      k keeps the fields of folder but its parent and name, the new
      folders hold no separator in their names and, but for k, no files,
      and the folders before i are untouched. */
  ghost predicate Grew(t: seq<Folder>, u: seq<Folder>, i: nat, folder: Folder, k: nat)
  {
    && Shaped(u) && Grown(t, u) && |t| <= k < |u|
    && u[k] == folder.(parent := u[k].parent, name := u[k].name)
    && (forall x :: |t| <= x < |u| ==> NoSeparator(u[x].name))
    && (forall x :: |t| <= x < |u| && x != k ==> u[x].files == [])
    && (forall x :: 0 <= x < i && x < |t| ==> u[x] == t[x])
  }

  /** Where addFolderInt puts a folder named name below folder i of t,
      u being the arena after: in the subtree of the first subfolder of i
      the name descends from, leaving i alone; or else in the subtree of
      one subfolder newly appended to i. */
  ghost predicate Placement(t: seq<Folder>, u: seq<Folder>, i: nat, name: seq<Byte>, k: nat)
    requires Shaped(t) && Rooted(u) && i < |t| <= |u| && k < |u|
  {
    var cs := t[i].subFolders;
    SubFoldersAfter(t, i);
    && Under(u, i, k)
    && match FirstMatch(t, cs, name)
       case Some(m) => u[i] == t[i] && Under(u, cs[m], k)
       case None =>
         && |u[i].subFolders| == |cs| + 1
         && |t| <= u[i].subFolders[|cs|] < |u|
         && Under(u, u[i].subFolders[|cs|], k)
  }

  /** For a clean path over folder names without '/', the placed folder's
      path is that of i joined with the name, every '/' turned to '\'. */
  ghost predicate PlacedPath(t: seq<Folder>, u: seq<Folder>, i: nat, name: seq<Byte>, k: nat)
    requires Rooted(t) && Rooted(u) && i < |t| && k < |u|
  {
    NoSlashNames(t) && CleanPath(name) ==>
      FullPath(u, k) == Join(FullPath(t, i), Backslashed(name))
  }

  /** addFolderInt placed folder below folder i of t as folder k of u. */
  ghost predicate Placed(t: seq<Folder>, u: seq<Folder>, i: nat, folder: Folder, k: nat)
    requires Shaped(t) && i < |t|
  {
    && Grew(t, u, i, folder, k)
    && Placement(t, u, i, folder.name, k)
    && PlacedPath(t, u, i, folder.name, k)
  }

  /** The folder placed below the j-th subfolder c of i, the first the name
      descends from, with that prefix dropped. */
  predicate BelowMatch(t: seq<Folder>, i: nat, j: nat, name: seq<Byte>)
    requires Shaped(t) && i < |t|
  {
    && j < |t[i].subFolders|
    && (forall m :: 0 <= m < j ==> !Descends(t[t[i].subFolders[m]].name, name))
    && Descends(t[t[i].subFolders[j]].name, name)
  }

  /** Descending into the first subfolder the name descends from places
      the folder below i. */
  lemma PlacedBelow(t: seq<Folder>, u: seq<Folder>, i: nat, j: nat, c: nat, folder: Folder, rest: Folder, k: nat)
    requires Shaped(t) && i < |t| && BelowMatch(t, i, j, folder.name) && c == t[i].subFolders[j]
    requires rest == folder.(name := folder.name[|t[c].name| + 1..])
    requires c < |t| && Placed(t, u, c, rest, k)
    ensures Placed(t, u, i, folder, k)
  {
    BelowGrew(t, u, i, c, folder, rest, k);
    BelowPlacement(t, u, i, j, folder.name, k);
    BelowPath(t, u, i, j, folder.name, k);
  }

  lemma BelowGrew(t: seq<Folder>, u: seq<Folder>, i: nat, c: nat, folder: Folder, rest: Folder, k: nat)
    requires i < c && rest == folder.(name := rest.name) && Grew(t, u, c, rest, k)
    ensures Grew(t, u, i, folder, k)
  {
  }

  lemma BelowPlacement(t: seq<Folder>, u: seq<Folder>, i: nat, j: nat, name: seq<Byte>, k: nat)
    requires Shaped(t) && i < |t| && BelowMatch(t, i, j, name)
    requires Shaped(u) && Grown(t, u) && |t| <= k < |u|
    requires Under(u, t[i].subFolders[j], k)
    requires forall x :: 0 <= x < t[i].subFolders[j] && x < |t| ==> u[x] == t[x]
    ensures Placement(t, u, i, name, k)
  {
    var c := t[i].subFolders[j];
    SubFoldersAfter(t, i);
    assert FirstMatch(t, t[i].subFolders, name) == Some(j);
    UnderParent(u, c, i, k);
  }

  lemma BelowPath(t: seq<Folder>, u: seq<Folder>, i: nat, j: nat, name: seq<Byte>, k: nat)
    requires Shaped(t) && i < |t| && BelowMatch(t, i, j, name)
    requires Rooted(u) && k < |u|
    requires
      var c := t[i].subFolders[j];
      PlacedPath(t, u, c, name[|t[c].name| + 1..], k)
    ensures PlacedPath(t, u, i, name, k)
  {
    var c := t[i].subFolders[j];
    var prefix := t[c].name;
    if NoSlashNames(t) && CleanPath(name) {
      SplitClean(name, |prefix|);
      SplitBackslashed(name, |prefix|);
      JoinAssoc(FullPath(t, i), prefix, Backslashed(name[|prefix| + 1..]));
    }
  }

  /** The arena after attaching f as a new last subfolder of i. */
  function Attached(t: seq<Folder>, i: nat, f: Folder): (u: seq<Folder>)
    requires i < |t|
    ensures |u| == |t| + 1 && u[|t|] == f && u[i].subFolders == t[i].subFolders + [|t|]
    ensures forall x :: 0 <= x < |t| && x != i ==> u[x] == t[x]
  {
    t[i := t[i].(subFolders := t[i].subFolders + [|t|])] + [f]
  }

  /** A name without a separator becomes a new last subfolder of i. */
  lemma PlacedLeaf(t: seq<Folder>, i: nat, folder: Folder)
    requires Shaped(t) && i < |t| && folder.subFolders == []
    requires FirstMatch(t, t[i].subFolders, folder.name).None?
    requires NoSeparator(folder.name)
    ensures Placed(t, Attached(t, i, folder.(parent := Some(i))), i, folder, |t|)
  {
    var u := Attached(t, i, folder.(parent := Some(i)));
    LeafGrew(t, i, folder);
    LeafPlacement(t, i, folder);
    LeafPath(t, i, folder);
  }

  lemma LeafGrew(t: seq<Folder>, i: nat, folder: Folder)
    requires Shaped(t) && i < |t| && folder.subFolders == [] && NoSeparator(folder.name)
    ensures Grew(t, Attached(t, i, folder.(parent := Some(i))), i, folder, |t|)
  {
    Attach(t, i, folder.(parent := Some(i)), Attached(t, i, folder.(parent := Some(i))));
  }

  lemma LeafPlacement(t: seq<Folder>, i: nat, folder: Folder)
    requires Shaped(t) && i < |t| && folder.subFolders == []
    requires FirstMatch(t, t[i].subFolders, folder.name).None?
    ensures Shaped(Attached(t, i, folder.(parent := Some(i))))
    ensures Placement(t, Attached(t, i, folder.(parent := Some(i))), i, folder.name, |t|)
  {
    Attach(t, i, folder.(parent := Some(i)), Attached(t, i, folder.(parent := Some(i))));
  }

  lemma LeafPath(t: seq<Folder>, i: nat, folder: Folder)
    requires Shaped(t) && i < |t| && folder.subFolders == [] && NoSeparator(folder.name)
    ensures Shaped(Attached(t, i, folder.(parent := Some(i))))
    ensures PlacedPath(t, Attached(t, i, folder.(parent := Some(i))), i, folder.name, |t|)
  {
    var u := Attached(t, i, folder.(parent := Some(i)));
    Attach(t, i, folder.(parent := Some(i)), u);
    GrownPath(t, u, i);
    NoSlashUnchanged(folder.name);
  }

  /** The premises of placing the rest of a name, after its first
      separator q, below a new folder d named by its first component and
      appended to i: v is the arena after. */
  ghost predicate DummyStep(t: seq<Folder>, i: nat, folder: Folder, q: nat, v: seq<Folder>, k: nat)
    requires Shaped(t) && i < |t|
  {
    && FirstMatch(t, t[i].subFolders, folder.name).None?
    && q < |folder.name| && IsSep(folder.name[q]) && NoSeparator(folder.name[..q])
    && Shaped(Attached(t, i, Child(i, folder.name[..q])))
    && Placed(Attached(t, i, Child(i, folder.name[..q])), v, |t|, folder.(name := folder.name[q + 1..]), k)
  }

  /** A new folder named by the first component, appended to i, with the
      rest placed below it, places the folder below i. */
  lemma PlacedDummy(t: seq<Folder>, i: nat, folder: Folder, q: nat, v: seq<Folder>, k: nat)
    requires Shaped(t) && i < |t| && DummyStep(t, i, folder, q, v, k)
    ensures Placed(t, v, i, folder, k)
  {
    DummyGrew(t, i, folder, q, v, k);
    DummyPlacement(t, i, folder, q, v, k);
    DummyPath(t, i, folder.name, q, v, k);
  }

  lemma DummyGrew(t: seq<Folder>, i: nat, folder: Folder, q: nat, v: seq<Folder>, k: nat)
    requires i < |t| && q < |folder.name| && NoSeparator(folder.name[..q])
    requires Grew(Attached(t, i, Child(i, folder.name[..q])), v, |t|, folder.(name := folder.name[q + 1..]), k)
    ensures Grew(t, v, i, folder, k)
  {
    var d := |t|;
    var u := Attached(t, i, Child(i, folder.name[..q]));
    AttachGrown(t, i, Child(i, folder.name[..q]), u);
    GrownTrans(t, u, v);
    assert v[d].name == folder.name[..q] && v[d].files == [];
    forall x | 0 <= x < i
      ensures v[x] == t[x]
    {
      assert v[x] == u[x];
    }
  }

  lemma DummyPlacement(t: seq<Folder>, i: nat, folder: Folder, q: nat, v: seq<Folder>, k: nat)
    requires Shaped(t) && i < |t| && DummyStep(t, i, folder, q, v, k)
    ensures Shaped(v) && |t| <= k < |v|
    ensures Placement(t, v, i, folder.name, k)
  {
    var u := Attached(t, i, Child(i, folder.name[..q]));
    var d := |t|;
    assert u[d].parent == Some(i);
    UnderParent(v, d, i, k);
  }

  lemma DummyPath(t: seq<Folder>, i: nat, name: seq<Byte>, q: nat, v: seq<Folder>, k: nat)
    requires Shaped(t) && i < |t| && q < |name| && IsSep(name[q]) && NoSeparator(name[..q])
    requires Shaped(Attached(t, i, Child(i, name[..q]))) && Rooted(v) && k < |v|
    requires PlacedPath(Attached(t, i, Child(i, name[..q])), v, |t|, name[q + 1..], k)
    ensures PlacedPath(t, v, i, name, k)
  {
    var u := Attached(t, i, Child(i, name[..q]));
    AttachGrown(t, i, Child(i, name[..q]), u);
    GrownPath(t, u, i);
    if NoSlashNames(t) && CleanPath(name) {
      assert NoSlashNames(u) by {
        assert forall b :: b in name[..q] ==> b != Slash;
      }
      SplitClean(name, q);
      SplitBackslashed(name, q);
      JoinAssoc(FullPath(t, i), name[..q], Backslashed(name[q + 1..]));
    }
  }

  // ---------------------------------------------------------------------
  // Folder records and data blocks

  /** Bytes of a folder record: name hash, file count and offset. */
  const FolderRecordSize: nat := 16

  /** The record Folder::writeHeader emits: the name hash, the number of
      files as a 32-bit value, and the offset the last writeData recorded.
      It has the layout of a file record, so ParseRecord reads it. */
  function FolderRecord(f: Folder): (r: seq<Byte>)
    ensures |r| == FolderRecordSize
  {
    TypeImage(Hash, f.nameHash) + TypeImage(ULong, |f.files|) + TypeImage(ULong, f.offsetWrite)
  }

  /** A written folder record reads back as the hash, the file count
      modulo 2^32 and the recorded offset. */
  lemma FolderRecordParses(f: Folder, d: seq<Byte>, p: nat)
    requires p + FolderRecordSize <= |d| && d[p..p + FolderRecordSize] == FolderRecord(f)
    ensures ParseRecord(d, p) == Some((f.nameHash, |f.files| % Word, f.offsetWrite))
  {
    FieldsParse(d, p, p + 8, p + 12, p + 16, f.nameHash, |f.files|, f.offsetWrite);
  }

  /** The records of the files fs, one after another. */
  function Records(fs: seq<File>): (r: seq<Byte>)
    ensures |r| == 16 * |fs|
    decreases |fs|
  {
    if fs == [] then [] else Records(fs[..|fs| - 1]) + RecordImage(fs[|fs| - 1])
  }

  /** n file records read from p on, as entries of no folder yet, if the
      stream holds them all. */
  function RecordsAt(d: seq<Byte>, p: nat, n: nat): (r: Option<seq<File>>)
    ensures r.Some? <==> n == 0 || p + 16 * n <= |d|
    ensures r.Some? ==> |r.value| == n
    decreases n
  {
    if n == 0 then Some([])
    else match RecordsAt(d, p, n - 1)
      case None => None
      case Some(fs) =>
        match FileAt(d, p + 16 * (n - 1), None)
        case None => None
        case Some(f) => Some(fs + [f])
  }

  /** g is the entry read back from the record of f: its hash, size and
      toggle, with the recorded data offset as its data offset. */
  predicate ReadBack(f: File, g: File)
  {
    && g.nameHash == f.nameHash && g.fileSize == f.fileSize
    && g.toggleCompressed == f.toggleCompressed && g.dataOffset == f.dataOffsetWrite
  }

  /** gs are the entries read back from the records of fs, one by one. */
  predicate AllReadBack(fs: seq<File>, gs: seq<File>)
  {
    |fs| == |gs| && forall j {:trigger fs[j], gs[j]} :: 0 <= j < |fs| ==> ReadBack(fs[j], gs[j])
  }

  /** Sizes below 2^30: the toggle bit is free. */
  predicate SizesFit(fs: seq<File>)
  {
    forall j :: 0 <= j < |fs| ==> !HasToggleBit(fs[j].fileSize)
  }

  /** Written file records read back entry by entry, for sizes below 2^30. */
  lemma {:induction false} RecordsRoundTrip(fs: seq<File>, d: seq<Byte>, p: nat)
    requires SizesFit(fs)
    requires p + 16 * |fs| <= |d| && d[p..p + 16 * |fs|] == Records(fs)
    ensures RecordsAt(d, p, |fs|).Some? && AllReadBack(fs, RecordsAt(d, p, |fs|).value)
    decreases |fs|
  {
    if fs != [] {
      var n := |fs| - 1;
      var front := fs[..n];
      var at := p + 16 * n;
      RecordsSlices(fs, d, p, n, at);
      assert SizesFit(front) && !HasToggleBit(fs[n].fileSize);
      RecordsRoundTrip(front, d, p);
      RecordRoundTrip(fs[n], d, at, None);
      RecordsAtLast(d, p, n, |fs|, at);
      ReadBackAppend(front, RecordsAt(d, p, n).value, fs[n], FileAt(d, at, None).value);
      SplitLast(fs);
    }
  }

  /** The records of fs split into those of all but the last file and
      the last file's record at position at. */
  lemma RecordsSlices(fs: seq<File>, d: seq<Byte>, p: nat, n: nat, at: nat)
    requires fs != [] && n == |fs| - 1 && at == p + 16 * n
    requires p + 16 * |fs| <= |d| && d[p..p + 16 * |fs|] == Records(fs)
    ensures d[p..at] == Records(fs[..n]) && d[at..at + RecordSize] == RecordImage(fs[n])
  {
    assert at + RecordSize == p + 16 * |fs|;
    SplitSlice(d, p, at, p + 16 * |fs|, Records(fs[..n]), RecordImage(fs[n]));
  }

  lemma SplitLast(fs: seq<File>)
    requires fs != []
    ensures fs[..|fs| - 1] + [fs[|fs| - 1]] == fs
  {
  }

  lemma ReadBackAppend(fs: seq<File>, gs: seq<File>, f: File, g: File)
    requires AllReadBack(fs, gs) && ReadBack(f, g)
    ensures AllReadBack(fs + [f], gs + [g])
  {
    forall j | 0 <= j < |fs| + 1
      ensures ReadBack((fs + [f])[j], (gs + [g])[j])
    {
      if j < |fs| {
        assert (fs + [f])[j] == fs[j] && (gs + [g])[j] == gs[j];
      }
    }
  }

  /** One more record read, at position at, appends its entry. */
  lemma RecordsAtLast(d: seq<Byte>, p: nat, n: nat, m: nat, at: nat)
    requires m == n + 1 && at == p + 16 * n && p + 16 * m <= |d|
    ensures RecordsAt(d, p, n).Some? && FileAt(d, at, None).Some?
    ensures RecordsAt(d, p, m) == Some(RecordsAt(d, p, n).value + [FileAt(d, at, None).value])
  {
  }

  /** The block Folder::writeData emits: the folder's path as a B-string,
      then the records of its files. */
  function DataBlock(path: seq<Byte>, fs: seq<File>): (r: seq<Byte>)
    ensures |r| == |EncodeBString(path)| + 16 * |fs|
  {
    EncodeBString(path) + Records(fs)
  }

  /** Folder::readFolder at p: the folder record (hash, file count,
      offset), then, at the offset less fileNamesLength as a 32-bit value,
      the folder's name and its file records. The result holds the folder,
      whose files belong to no folder yet, and the end of its block. */
  function FolderAt(d: seq<Byte>, p: nat, fileNamesLength: U32): (r: Option<(Folder, nat)>)
    ensures r.Some? ==> p + FolderRecordSize <= |d| && r.value.1 <= |d|
    ensures r.Some? ==> var f := r.value.0;
      && f.parent.None? && f.subFolders == [] && f.offsetWrite == 0
      && f.fileCount == |f.files|
  {
    match ParseRecord(d, p)
    case None => None
    case Some((hash, count, offset)) => FolderBlock(d, hash, count, offset, fileNamesLength)
  }

  /** The rest of readFolder once the record gave hash, count and offset:
      the name and the file records at the offset less fileNamesLength. */
  function FolderBlock(d: seq<Byte>, hash: U64, count: U32, offset: U32, fileNamesLength: U32)
    : (r: Option<(Folder, nat)>)
    ensures r.Some? ==> r.value.1 <= |d|
    ensures r.Some? ==> var f := r.value.0;
      && f.parent.None? && f.subFolders == [] && f.offsetWrite == 0
      && f.fileCount == |f.files| && f.nameHash == hash && f.offset == offset
  {
    match ParseBString(d, (offset - fileNamesLength) % Word)
    case None => None
    case Some((name, q)) =>
      match RecordsAt(d, q, count)
      case None => None
      case Some(files) =>
        Some((Folder(None, hash, name, count, offset, [], files, 0), q + 16 * count))
  }

  /** Storing a block position plus fileNamesLength and subtracting it
      again, both modulo 2^32, gives back the position. */
  lemma OffsetRoundTrip(q: nat, fileNamesLength: U32, offset: nat)
    requires q < Word && offset == (q + fileNamesLength) % Word
    ensures (offset - fileNamesLength) % Word == q
  {
    if q + fileNamesLength >= Word {
      assert offset == q + fileNamesLength - Word;
    }
  }

  /** Reading the folder record at p gives back f under the name path:
      its hash, the offset recorded for it and every file record. */
  predicate FolderReadsBack(d: seq<Byte>, p: nat, fileNamesLength: U32, f: Folder, path: seq<Byte>)
  {
    match FolderAt(d, p, fileNamesLength)
    case None => false
    case Some((g, _)) =>
      g.nameHash == f.nameHash && g.name == path && g.offset == f.offsetWrite && AllReadBack(f.files, g.files)
  }

  /** A folder's data block written at q, with its record written at p,
      them read back, through readFolder, as the folder's hash, its path as
      name, its file count and offset and its files' records; the block
      ends where readFolder says. */
  lemma StoredFolderRoundTrip(f: Folder, path: seq<Byte>, d: seq<Byte>, p: nat, q: nat,
                              fileNamesLength: U32)
    requires |f.files| < Word && Nul !in path && |path| <= 254 && SizesFit(f.files)
    requires q < Word && f.offsetWrite == (q + fileNamesLength) % Word
    requires p + FolderRecordSize <= |d| && d[p..p + FolderRecordSize] == FolderRecord(f)
    requires q + |DataBlock(path, f.files)| <= |d|
    requires d[q..q + |DataBlock(path, f.files)|] == DataBlock(path, f.files)
    ensures FolderReadsBack(d, p, fileNamesLength, f, path)
    ensures FolderAt(d, p, fileNamesLength).Some?
      && FolderAt(d, p, fileNamesLength).value.1 == q + |DataBlock(path, f.files)|
  {
    var x, files := BlockReadsBack(path, f.files, d, q);
    RecordReadsBack(f, d, p, q, fileNamesLength);
    StoredFolderRead(f, path, d, p, q, x, q + |DataBlock(path, f.files)|, fileNamesLength, files);
  }

  /** A written folder record reads back as the hash, the file count and
      the offset, which less fileNamesLength is where the block was
      written. */
  lemma RecordReadsBack(f: Folder, d: seq<Byte>, p: nat, q: nat, fileNamesLength: U32)
    requires |f.files| < Word && q < Word && f.offsetWrite == (q + fileNamesLength) % Word
    requires p + FolderRecordSize <= |d| && d[p..p + FolderRecordSize] == FolderRecord(f)
    ensures ParseRecord(d, p) == Some((f.nameHash, |f.files|, f.offsetWrite))
    ensures (f.offsetWrite - fileNamesLength) % Word == q
  {
    FolderRecordParses(f, d, p);
    SmallMod(|f.files|);
    OffsetRoundTrip(q, fileNamesLength, f.offsetWrite);
  }

  /** A written data block reads back as the path, ending at x, and the
      records of its files. */
  lemma BlockReadsBack(path: seq<Byte>, fs: seq<File>, d: seq<Byte>, q: nat) returns (x: nat, files: seq<File>)
    requires Nul !in path && |path| <= 254 && SizesFit(fs)
    requires q + |DataBlock(path, fs)| <= |d| && d[q..q + |DataBlock(path, fs)|] == DataBlock(path, fs)
    ensures x + 16 * |fs| == q + |DataBlock(path, fs)|
    ensures ParseBString(d, q) == Some((path, x))
    ensures RecordsAt(d, x, |fs|) == Some(files) && AllReadBack(fs, files)
  {
    x := q + |path| + 2;
    BlockSlices(path, fs, d, q, x);
    BlockRoundTrip(path, fs, d, q, x);
    files := RecordsAt(d, x, |fs|).value;
  }

  /** The three reads of readFolder, each succeeding, assemble the folder. */
  lemma StoredFolderRead(f: Folder, path: seq<Byte>, d: seq<Byte>, p: nat, q: nat, x: nat, e: nat,
                         fileNamesLength: U32, files: seq<File>)
    requires ParseRecord(d, p) == Some((f.nameHash, |f.files|, f.offsetWrite))
    requires (f.offsetWrite - fileNamesLength) % Word == q
    requires ParseBString(d, q) == Some((path, x))
    requires RecordsAt(d, x, |f.files|) == Some(files) && AllReadBack(f.files, files)
    requires e == x + 16 * |f.files|
    ensures FolderReadsBack(d, p, fileNamesLength, f, path)
    ensures FolderAt(d, p, fileNamesLength).Some? && FolderAt(d, p, fileNamesLength).value.1 == e
  {
    FolderAtIs(d, p, fileNamesLength, f.nameHash, |f.files|, f.offsetWrite, path, x, files);
  }

  /** A written data block, its records starting at x, reads back as the
      path and the files' records. */
  lemma BlockRoundTrip(path: seq<Byte>, fs: seq<File>, d: seq<Byte>, q: nat, x: nat)
    requires Nul !in path && |path| <= 254 && SizesFit(fs) && x == q + |path| + 2
    requires x + 16 * |fs| <= |d| && d[q..x] == EncodeBString(path)
    requires d[x..x + 16 * |fs|] == Records(fs)
    ensures ParseBString(d, q) == Some((path, x))
    ensures RecordsAt(d, x, |fs|).Some?
    ensures AllReadBack(fs, RecordsAt(d, x, |fs|).value)
  {
    BStringRoundTrip(d, q, path);
    RecordsRoundTrip(fs, d, x);
  }

  /** A data block is a B-string, ending at x, followed by the records. */
  lemma BlockSlices(path: seq<Byte>, fs: seq<File>, d: seq<Byte>, q: nat, x: nat)
    requires |path| <= 254 && x == q + |path| + 2
    requires q + |DataBlock(path, fs)| <= |d| && d[q..q + |DataBlock(path, fs)|] == DataBlock(path, fs)
    ensures x + 16 * |fs| <= |d| && x + 16 * |fs| == q + |DataBlock(path, fs)|
    ensures d[q..x] == EncodeBString(path)
    ensures d[x..x + 16 * |fs|] == Records(fs)
  {
    var b, r := EncodeBString(path), Records(fs);
    assert |b| == |path| + 2;
    assert DataBlock(path, fs) == b + r;
    SplitSlice(d, q, x, q + |b + r|, b, r);
  }

  /** FolderAt assembled from its three reads. */
  lemma FolderAtIs(d: seq<Byte>, p: nat, fileNamesLength: U32, hash: U64, count: U32,
                   offset: U32, name: seq<Byte>, q: nat, files: seq<File>)
    requires ParseRecord(d, p) == Some((hash, count, offset))
    requires ParseBString(d, (offset - fileNamesLength) % Word) == Some((name, q))
    requires RecordsAt(d, q, count) == Some(files)
    ensures FolderAt(d, p, fileNamesLength)
      == Some((Folder(None, hash, name, count, offset, [], files, 0), q + 16 * count))
  {
    FolderAtRecord(d, p, fileNamesLength, hash, count, offset);
    FolderBlockIs(d, hash, count, offset, fileNamesLength, name, q, files);
  }

  lemma FolderAtRecord(d: seq<Byte>, p: nat, fileNamesLength: U32, hash: U64, count: U32, offset: U32)
    requires ParseRecord(d, p) == Some((hash, count, offset))
    ensures FolderAt(d, p, fileNamesLength) == FolderBlock(d, hash, count, offset, fileNamesLength)
  {
  }

  lemma FolderBlockIs(d: seq<Byte>, hash: U64, count: U32, offset: U32, fileNamesLength: U32,
                      name: seq<Byte>, q: nat, files: seq<File>)
    requires ParseBString(d, (offset - fileNamesLength) % Word) == Some((name, q))
    requires RecordsAt(d, q, count) == Some(files)
    ensures FolderBlock(d, hash, count, offset, fileNamesLength)
      == Some((Folder(None, hash, name, count, offset, [], files, 0), q + 16 * count))
  {
  }

  /** endPos raised to the end of a block, compared as 32-bit values. */
  function Raised(endPos: U32, e: nat): (r: U32)
    ensures r >= endPos && r >= e % Word && (r == endPos || r == e % Word)
  {
    if e % Word > endPos then e % Word else endPos
  }

  /** Folder::readFolder: reads the folder at the current position, raises
      endPos to the end of its block and leaves the position just after
      its record. */
  method ReadFolder(s: Stream, fileNamesLength: U32, endPos: U32) returns (r: Option<Folder>, newEnd: U32)
    modifies s`pos
    ensures r.Some? <==> FolderAt(s.data, old(s.pos), fileNamesLength).Some?
    ensures r.Some? ==>
      var (f, e) := FolderAt(s.data, old(s.pos), fileNamesLength).value;
      r.value == f && newEnd == Raised(endPos, e) && s.pos == old(s.pos) + FolderRecordSize
  {
    newEnd := endPos;
    ghost var d, p := s.data, s.pos;
    var record := ReadFields(s);
    if record.None? {
      return None, newEnd;
    }
    var (hash, count, offset) := record.value;
    var pos := s.pos;
    s.Seek((offset - fileNamesLength) % Word);
    var name := s.ReadBString();
    if name.None? {
      FolderAtFails(d, p, fileNamesLength, hash, count, offset);
      return None, newEnd;
    }
    ghost var q := s.pos;
    var read := ReadRecords(s, count);
    if read.None? {
      FolderAtFails(d, p, fileNamesLength, hash, count, offset);
      return None, newEnd;
    }
    var files := read.value;
    FolderAtIs(d, p, fileNamesLength, hash, count, offset, name.value, q, files);
    assert s.pos == FolderAt(d, p, fileNamesLength).value.1;
    newEnd := Raised(endPos, s.pos);
    s.Seek(pos);
    r := Some(Folder(None, hash, name.value, count, offset, [], files, 0));
  }

  /** The loop of Folder::readFolder: count file records read in turn. */
  method ReadRecords(s: Stream, count: nat) returns (r: Option<seq<File>>)
    modifies s`pos
    ensures r == RecordsAt(s.data, old(s.pos), count)
    ensures r.Some? ==> s.pos == old(s.pos) + 16 * count
  {
    ghost var q := s.pos;
    var files: seq<File> := [];
    var j := 0;
    while j < count
      invariant j <= count && s.pos == q + 16 * j
      invariant RecordsAt(s.data, q, j) == Some(files)
    {
      ghost var at := s.pos;
      var f := ReadRecord(s, None);
      if f.None? {
        RecordsAtShort(s.data, q, j, count);
        return None;
      }
      RecordsAtLast(s.data, q, j, j + 1, at);
      files := files + [f.value];
      j := j + 1;
    }
    r := Some(files);
  }

  /** FolderAt fails when the record parses but the block after it does not. */
  lemma FolderAtFails(d: seq<Byte>, p: nat, fileNamesLength: U32, hash: U64, count: U32, offset: U32)
    requires ParseRecord(d, p) == Some((hash, count, offset))
    requires var b := ParseBString(d, (offset - fileNamesLength) % Word);
      b.None? || RecordsAt(d, b.value.1, count).None?
    ensures FolderAt(d, p, fileNamesLength).None?
  {
  }

  /** When the stream ends within record j, fewer than n > j records fit. */
  lemma RecordsAtShort(d: seq<Byte>, p: nat, j: nat, n: nat)
    requires j < n && FileAt(d, p + 16 * j, None).None?
    ensures RecordsAt(d, p, n).None?
  {
    assert 16 * j + RecordSize <= 16 * n;
  }

  /** The files fs as entries of folder k. */
  function Owned(fs: seq<File>, k: nat): (r: seq<File>)
    ensures |r| == |fs| && forall j :: 0 <= j < |fs| ==> r[j] == fs[j].(folder := Some(k))
  {
    seq(|fs|, j requires 0 <= j < |fs| => fs[j].(folder := Some(k)))
  }

  /** Folder::writeFileData over the files fs, the target at pos: each
      file's payload is emitted in turn until the first error. The result
      holds the entries (updated up to and including the failing one), the
      bytes emitted and the status. */
  function FileRun(fs: seq<File>, archive: seq<Byte>, disk: Disk, pos: nat): (r: (seq<File>, seq<Byte>, ErrorCode))
    ensures |r.0| == |fs|
    decreases |fs|
  {
    if fs == [] then ([], [], ErrorNone)
    else
      var g := WrittenEntry(fs[0], disk, pos);
      var bytes := Payload(fs[0], archive, disk);
      var e := WriteError(fs[0], archive, disk);
      if e != ErrorNone then ([g] + fs[1..], bytes, e)
      else
        var rest := FileRun(fs[1..], archive, disk, pos + |bytes|);
        ([g] + rest.0, bytes + rest.1, rest.2)
  }

  /** writeFileData succeeds exactly when every file's writeData does; a
      failure reports the first failing file's status. */
  lemma {:induction false} FileRunStatus(fs: seq<File>, archive: seq<Byte>, disk: Disk, pos: nat)
    ensures FileRun(fs, archive, disk, pos).2 == ErrorNone <==>
      forall j :: 0 <= j < |fs| ==> WriteError(fs[j], archive, disk) == ErrorNone
    ensures FileRun(fs, archive, disk, pos).2 != ErrorNone ==>
      exists j :: 0 <= j < |fs| && FileRun(fs, archive, disk, pos).2 == WriteError(fs[j], archive, disk)
    decreases |fs|
  {
    if fs != [] {
      var e := WriteError(fs[0], archive, disk);
      var next := pos + |Payload(fs[0], archive, disk)|;
      FileRunStatus(fs[1..], archive, disk, next);
      var rest := FileRun(fs[1..], archive, disk, next).2;
      assert FileRun(fs, archive, disk, pos).2 == if e != ErrorNone then e else rest;
      if e == ErrorNone && rest != ErrorNone {
        var j :| 0 <= j < |fs| - 1 && rest == WriteError(fs[1..][j], archive, disk);
        assert fs[1..][j] == fs[j + 1];
      }
    }
  }

  /** Folder::resolveFileNames over the files fs from position p, on a
      stream that is good or not: every file's name is read in turn,
      whether or not an earlier one threw. The result holds the entries,
      the position after, whether the stream is still good and whether no
      read threw. Without testHashes nothing throws. */
  function ResolveRun(fs: seq<File>, d: seq<Byte>, p: nat, good: bool, testHashes: bool)
    : (r: (seq<File>, nat, bool, bool))
    ensures |r.0| == |fs| && p <= r.1 && (r.2 ==> good)
    ensures !testHashes ==> r.3
    decreases |fs|
  {
    if fs == [] then ([], p, good, true)
    else
      var (g, q, good', threw) := ResolvedName(fs[0], d, p, good, testHashes);
      var rest := ResolveRun(fs[1..], d, q, good', testHashes);
      ([g] + rest.0, rest.1, rest.2, !threw && rest.3)
  }

  /** Once the stream is not good, resolveFileNames gives every file an
      empty name and the position stays where it is. */
  lemma {:induction false} ResolveRunStalled(fs: seq<File>, d: seq<Byte>, p: nat, testHashes: bool)
    ensures var r := ResolveRun(fs, d, p, false, testHashes);
      r.1 == p && !r.2 && forall j :: 0 <= j < |fs| ==> r.0[j] == fs[j].(name := [])
    decreases |fs|
  {
    if fs != [] {
      ResolveRunStalled(fs[1..], d, p, testHashes);
      var r := ResolveRun(fs, d, p, false, testHashes);
      var rest := ResolveRun(fs[1..], d, p, false, testHashes);
      assert r.0 == [fs[0].(name := [])] + rest.0 && r.1 == rest.1 && r.2 == rest.2;
      forall j | 1 <= j < |fs|
        ensures r.0[j] == fs[j].(name := [])
      {
        assert r.0[j] == rest.0[j - 1] && fs[1..][j - 1] == fs[j];
      }
    }
  }

  /** gs are the entries fs before their names are read: equal in every
      field but the name. */
  predicate Unnamed(fs: seq<File>, gs: seq<File>)
    decreases |fs|
  {
    |gs| == |fs| && (fs != [] ==> gs[0] == fs[0].(name := gs[0].name) && Unnamed(fs[1..], gs[1..]))
  }

  /** Names writeZString can emit and readFileName accepts: no NUL inside
      and shorter than FilenameMax. */
  predicate StoredNames(fs: seq<File>)
    decreases |fs|
  {
    fs != [] ==> Nul !in fs[0].name && |fs[0].name| < FilenameMax && StoredNames(fs[1..])
  }

  /** Every entry's name hashes to the entry's hash. */
  predicate HashesMatch(fs: seq<File>)
    decreases |fs|
  {
    fs != [] ==> BsaHash(fs[0].name) == fs[0].nameHash && HashesMatch(fs[1..])
  }

  /** Every one of the |fs| names read from p in turn is terminated
      inside d. */
  predicate ReadsAll(fs: seq<File>, d: seq<Byte>, p: nat)
    decreases |fs|
  {
    fs != [] ==>
      match ParseZString(d, p)
      case None => false
      case Some((_, q)) => ReadsAll(fs[1..], d, q)
  }

  /** The names of the entries fs as writeZString emits them, one after
      another. */
  function NamesBlock(fs: seq<File>): (r: seq<Byte>)
    decreases |fs|
  {
    if fs == [] then [] else EncodeZString(fs[0].name) + NamesBlock(fs[1..])
  }

  /** resolveFileNames reports no failure exactly when hashes are not
      tested or every name read hashes to its entry's hash, and the stream
      stays good exactly when it was and every name is terminated. */
  lemma {:induction false} ResolveRunSucceeds(gs: seq<File>, d: seq<Byte>, p: nat, good: bool,
                                              testHashes: bool)
    ensures var r := ResolveRun(gs, d, p, good, testHashes);
      (r.3 <==> !testHashes || HashesMatch(r.0)) && (r.2 <==> good && ReadsAll(gs, d, p))
    decreases |gs|
  {
    if gs != [] {
      var (g, q, good', threw) := ResolvedName(gs[0], d, p, good, testHashes);
      ResolveRunSucceeds(gs[1..], d, q, good', testHashes);
      var rest := ResolveRun(gs[1..], d, q, good', testHashes);
      assert ([g] + rest.0)[1..] == rest.0;
    }
  }

  /** Names written after their records read back: resolving the entries
      restores every name, every name is terminated, and the position ends
      after the last name. */
  lemma {:induction false} ResolveWrittenNames(fs: seq<File>, gs: seq<File>, d: seq<Byte>, p: nat,
                                               testHashes: bool)
    requires Unnamed(fs, gs) && StoredNames(fs)
    requires p + |NamesBlock(fs)| <= |d| && d[p..p + |NamesBlock(fs)|] == NamesBlock(fs)
    ensures var r := ResolveRun(gs, d, p, true, testHashes);
      r.0 == fs && r.1 == p + |NamesBlock(fs)| && r.2
    decreases |fs|
  {
    if fs != [] {
      var x := p + |fs[0].name| + 1;
      var e := p + |NamesBlock(fs)|;
      SplitSlice(d, p, x, e, EncodeZString(fs[0].name), NamesBlock(fs[1..]));
      ResolveWrittenName(fs[0], gs[0], d, p, x, testHashes);
      ResolveWrittenNames(fs[1..], gs[1..], d, x, testHashes);
      ResolveRunFirst(fs, gs, d, p, x, e, testHashes);
    }
  }

  /** One step of ResolveRun: the first name reads back and the remaining
      names resolve. */
  lemma ResolveRunFirst(fs: seq<File>, gs: seq<File>, d: seq<Byte>, p: nat, x: nat, e: nat,
                        testHashes: bool)
    requires fs != [] && |gs| == |fs|
    requires var r := ResolvedName(gs[0], d, p, true, testHashes); r.0 == fs[0] && r.1 == x && r.2
    requires var r := ResolveRun(gs[1..], d, x, true, testHashes); r.0 == fs[1..] && r.1 == e && r.2
    ensures var r := ResolveRun(gs, d, p, true, testHashes); r.0 == fs && r.1 == e && r.2
  {
    assert [fs[0]] + fs[1..] == fs;
  }

  /** The written names block reads back whole, and resolving it fails
      only when hashes are tested and some name does not hash to its
      entry's hash. */
  lemma ResolveStoredNames(fs: seq<File>, gs: seq<File>, d: seq<Byte>, p: nat, testHashes: bool)
    requires Unnamed(fs, gs) && StoredNames(fs)
    requires p + |NamesBlock(fs)| <= |d| && d[p..p + |NamesBlock(fs)|] == NamesBlock(fs)
    ensures var r := ResolveRun(gs, d, p, true, testHashes);
      r.0 == fs && r.1 == p + |NamesBlock(fs)| && r.2 && (r.3 <==> !testHashes || HashesMatch(fs))
  {
    ResolveWrittenNames(fs, gs, d, p, testHashes);
    ResolveRunSucceeds(gs, d, p, true, testHashes);
  }

  /** The folder tree: the arena of folders with the root at handle 0. */
  class Tree {
    var nodes: seq<Folder>

    ghost predicate Valid()
      reads this
    {
      Shaped(nodes)
    }

    /** The root folder alone. */
    constructor ()
      ensures nodes == [Blank()] && Valid()
    {
      nodes := [Blank()];
    }

    /** getNumFiles: the length of the file list as an unsigned int. */
    function NumFiles(i: nat): (r: nat)
      reads this
      requires i < |nodes|
      ensures r < Word
      ensures |nodes[i].files| < Word ==> r == |nodes[i].files|
    {
      |nodes[i].files| % Word
    }

    /** getNumSubFolders: the length of the subfolder list as an unsigned int. */
    function NumSubFolders(i: nat): (r: nat)
      reads this
      requires i < |nodes|
      ensures r < Word
      ensures |nodes[i].subFolders| < Word ==> r == |nodes[i].subFolders|
    {
      |nodes[i].subFolders| % Word
    }

    /** getSubFolder: the subfolder at index, or None where at() throws
        out_of_range. */
    function SubFolder(i: nat, index: nat): (r: Option<nat>)
      reads this
      requires i < |nodes|
      ensures r.Some? <==> index < |nodes[i].subFolders|
      ensures r.Some? ==> r.value == nodes[i].subFolders[index]
    {
      if index < |nodes[i].subFolders| then Some(nodes[i].subFolders[index]) else None
    }

    /** getFile: the file at index, or None where at() throws out_of_range. */
    function FileOf(i: nat, index: nat): (r: Option<File>)
      reads this
      requires i < |nodes|
      ensures r.Some? <==> index < |nodes[i].files|
      ensures r.Some? ==> r.value == nodes[i].files[index]
    {
      if index < |nodes[i].files| then Some(nodes[i].files[index]) else None
    }

    /** addFile: appends the file to folder i and changes nothing else; the
        file's own folder handle is left as it is. */
    method AddFile(i: nat, f: File)
      requires Valid() && i < |nodes|
      modifies this
      ensures Valid()
      ensures nodes == old(nodes)[i := old(nodes)[i].(files := old(nodes)[i].files + [f])]
      ensures FileOf(i, |old(nodes)[i].files|) == Some(f)
    {
      nodes := nodes[i := nodes[i].(files := nodes[i].files + [f])];
    }

    /** addFolder(folderName): a new, empty folder of that name appended to
        folder i's subfolders, whatever names its siblings have. */
    method AddFolder(i: nat, name: seq<Byte>) returns (k: nat)
      requires Valid() && i < |nodes|
      modifies this
      ensures Valid()
      ensures k == |old(nodes)|
      ensures nodes == old(nodes)[i := old(nodes)[i].(subFolders := old(nodes)[i].subFolders + [k])]
                       + [Child(i, name)]
      ensures FullPath(nodes, k) == Join(FullPath(nodes, i), name)
      ensures k !in FoldersBelow(nodes, Root)
    {
      k := |nodes|;
      ghost var t := nodes;
      nodes := nodes[i := nodes[i].(subFolders := nodes[i].subFolders + [k])] + [Child(i, name)];
      Attach(t, i, Child(i, name), nodes);
      FoldersBelowHoldFiles(nodes, Root);
    }

    /** addFolderInt: places folder below folder i by its name, a path,
        and returns the handle it receives; Placed says where. */
    method AddFolderInt(i: nat, folder: Folder) returns (k: nat)
      requires Valid() && i < |nodes| && folder.subFolders == []
      modifies this
      ensures Valid() && Placed(old(nodes), nodes, i, folder, k)
      decreases |folder.name|, 1
    {
      var m := FindSubFolder(i, folder.name);
      if m.Some? {
        var c := nodes[i].subFolders[m.value];
        ghost var t := nodes;
        assert BelowMatch(t, i, m.value, folder.name);
        var rest := folder.(name := folder.name[|nodes[c].name| + 1..]);
        SubFoldersAfter(nodes, i);
        k := AddFolderInt(c, rest);
        PlacedBelow(t, nodes, i, m.value, c, folder, rest, k);
      } else {
        k := AddFolderHere(i, folder);
      }
    }

    /** The loop of addFolderInt over the subfolders of i: the first whose
        name the path descends from, if any. */
    method FindSubFolder(i: nat, name: seq<Byte>) returns (m: Option<nat>)
      requires Valid() && i < |nodes|
      ensures m == FirstMatch(nodes, nodes[i].subFolders, name)
    {
      var subs := nodes[i].subFolders;
      var j := 0;
      while j < |subs|
        invariant j <= |subs|
        invariant forall x :: 0 <= x < j ==> !Descends(nodes[subs[x]].name, name)
      {
        var prefix := nodes[subs[j]].name;
        if |name| > |prefix| && name[..|prefix|] == prefix && IsSep(name[|prefix|]) {
          FirstMatchUnique(nodes, subs, name, Some(j));
          return Some(j);
        }
        j := j + 1;
      }
      FirstMatchUnique(nodes, subs, name, None);
      m := None;
    }

    /** The rest of addFolderInt, once no subfolder of i matches: a name
        without a separator becomes a new subfolder of i; otherwise a new
        folder named by the first component is created and the rest placed
        inside it. */
    method AddFolderHere(i: nat, folder: Folder) returns (k: nat)
      requires Valid() && i < |nodes| && folder.subFolders == []
      requires Handles(nodes, nodes[i].subFolders)
      requires FirstMatch(nodes, nodes[i].subFolders, folder.name).None?
      modifies this
      ensures Valid() && Placed(old(nodes), nodes, i, folder, k)
      decreases |folder.name|, 0
    {
      var name := folder.name;
      var separator := FirstSeparator(name);
      ghost var t := nodes;
      if separator.None? {
        k := |nodes|;
        var placed := folder.(parent := Some(i));
        nodes := nodes[i := nodes[i].(subFolders := nodes[i].subFolders + [k])] + [placed];
        PlacedLeaf(t, i, folder);
      } else {
        var q := separator.value;
        var d := |nodes|;
        var dummy := Child(i, name[..q]);
        nodes := nodes[i := nodes[i].(subFolders := nodes[i].subFolders + [d])] + [dummy];
        Attach(t, i, dummy, nodes);
        k := AddFolderInt(d, folder.(name := name[q + 1..]));
        PlacedDummy(t, i, folder, q, nodes, k);
      }
    }

    /** collectFiles: appends the files of folder i and below to fileList. */
    method CollectFiles(i: nat, fileList: seq<File>) returns (r: seq<File>)
      requires Linked(nodes) && i < |nodes|
      ensures r == fileList + FilesFrom(nodes, i)
      decreases |nodes| - i
    {
      ghost var t := nodes;
      r := fileList + nodes[i].files;
      ghost var own := r;
      var subs := nodes[i].subFolders;
      SubFoldersAfter(t, i);
      var k := 0;
      while k < |subs|
        invariant k <= |subs| && nodes == t
        invariant r == own + FilesOf(t, i, subs[..k])
      {
        ghost var r0 := r;
        r := CollectFiles(subs[k], r);
        FilesStep(t, i, subs, k, own, r0, r);
        k := k + 1;
      }
      assert subs[..k] == subs;
    }

    /** collectFileNames: appends the names of the files of folder i and
        below to nameList. */
    method CollectFileNames(i: nat, nameList: seq<seq<Byte>>) returns (r: seq<seq<Byte>>)
      requires Linked(nodes) && i < |nodes|
      ensures r == nameList + FileNames(FilesFrom(nodes, i))
      decreases |nodes| - i
    {
      ghost var t := nodes;
      r := nameList + FileNames(nodes[i].files);
      ghost var own := r;
      var subs := nodes[i].subFolders;
      SubFoldersAfter(t, i);
      var k := 0;
      while k < |subs|
        invariant k <= |subs| && nodes == t
        invariant r == own + FileNames(FilesOf(t, i, subs[..k]))
      {
        ghost var r0 := r;
        r := CollectFileNames(subs[k], r);
        FileNamesStep(t, i, subs, k, own, r0, r);
        k := k + 1;
      }
      assert subs[..k] == subs;
      FileNamesAppend(t[i].files, FilesOf(t, i, subs));
    }

    /** collectFolders: appends the folders below i that hold files, in
        pre-order. */
    method CollectFolders(i: nat, folderList: seq<nat>) returns (r: seq<nat>)
      requires Linked(nodes) && i < |nodes|
      ensures r == folderList + FoldersBelow(nodes, i)
      decreases |nodes| - i
    {
      ghost var t := nodes;
      r := folderList;
      var subs := nodes[i].subFolders;
      SubFoldersAfter(t, i);
      var k := 0;
      while k < |subs|
        invariant k <= |subs| && nodes == t
        invariant r == folderList + FoldersOf(t, i, subs[..k])
      {
        ghost var r0 := r;
        var c := subs[k];
        if |nodes[c].files| != 0 {
          r := r + [c];
        }
        ghost var r1 := r;
        r := CollectFolders(c, r);
        FoldersStep(t, i, subs, k, folderList, r0, r1, r);
        k := k + 1;
      }
      assert subs[..k] == subs;
    }

    /** collectFolderNames: appends folder i's path when it holds files,
        then the names below its subfolders. */
    method CollectFolderNames(i: nat, nameList: seq<seq<Byte>>) returns (r: seq<seq<Byte>>)
      requires Linked(nodes) && Rooted(nodes) && i < |nodes|
      ensures r == nameList + FolderNames(nodes, i)
      decreases |nodes| - i
    {
      r := nameList;
      if |nodes[i].files| != 0 {
        r := r + [FullPath(nodes, i)];
      }
      ghost var own := r[|nameList|..];
      assert r == nameList + own;
      ghost var t := nodes;
      var subs := nodes[i].subFolders;
      SubFoldersAfter(t, i);
      var k := 0;
      while k < |subs|
        invariant k <= |subs| && nodes == t
        invariant r == nameList + own + NamesOf(t, i, subs[..k])
      {
        ghost var r0 := r;
        r := CollectFolderNames(subs[k], r);
        FolderNamesStep(t, i, subs, k, nameList + own, r0, r);
        k := k + 1;
      }
      assert subs[..k] == subs;
    }

    /** Folder::writeHeader: the record of folder i at the current position. */
    method WriteHeader(i: nat, s: Stream)
      requires i < |nodes| && s.pos <= |s.data|
      modifies s`data, s`pos
      ensures s.data == Splice(old(s.data), old(s.pos), FolderRecord(nodes[i]))
      ensures s.pos == old(s.pos) + FolderRecordSize
    {
      var f := nodes[i];
      var a, b, c := TypeImage(Hash, f.nameHash), TypeImage(ULong, |f.files|),
                     TypeImage(ULong, f.offsetWrite);
      s.WriteType(Hash, f.nameHash);
      s.WriteType(ULong, |f.files|);
      SpliceAppend(old(s.data), old(s.pos), a, b);
      s.WriteType(ULong, f.offsetWrite);
      SpliceAppend(old(s.data), old(s.pos), a + b, c);
    }

    /** Folder::writeData: records the current position plus the total
        file-name length as the folder's offset, then emits the folder's
        path and the records of its files. */
    method WriteData(i: nat, s: Stream, fileNamesLength: U32)
      requires Valid() && i < |nodes| && s.pos <= |s.data|
      modifies this, s`data, s`pos
      ensures Valid()
      ensures nodes == old(nodes)[i := WithOffset(old(nodes)[i], Offset(old(s.pos), fileNamesLength))]
      ensures s.data == Splice(old(s.data), old(s.pos), DataBlock(FullPath(old(nodes), i), old(nodes)[i].files))
      ensures s.pos == old(s.pos) + |DataBlock(FullPath(old(nodes), i), old(nodes)[i].files)|
    {
      ghost var t, d0, p0 := nodes, s.data, s.pos;
      ghost var f := WithOffset(t[i], Offset(p0, fileNamesLength));
      Retouch(t, i, f);
      RetouchPath(t, i, f, i);
      ghost var bstring := EncodeBString(FullPath(t, i));
      SpliceNext(d0, p0, bstring, p0 + |bstring|, Records(t[i].files));
      nodes := nodes[i := WithOffset(nodes[i], Offset(s.pos, fileNamesLength))];
      var path := FullPath(nodes, i);
      s.WriteBString(path);
      WriteRecords(nodes[i].files, s);
    }

    /** Folder::writeFileData: writes the payload of each file of folder i
        in turn, updating its entry, and stops at the first error, which it
        returns; FileRun states the outcome. */
    method WriteFileData(i: nat, source: Stream, target: Stream, disk: Disk) returns (e: ErrorCode)
      requires Valid() && i < |nodes| && source != target && target.pos <= |target.data|
      modifies this, source`pos, target`data, target`pos
      ensures Valid()
      ensures var r := FileRun(old(nodes)[i].files, source.data, disk, old(target.pos));
        && nodes == old(nodes)[i := WithFiles(old(nodes)[i], r.0)]
        && target.data == Splice(old(target.data), old(target.pos), r.1)
        && target.pos == old(target.pos) + |r.1| && e == r.2
    {
      var files;
      files, e := WriteFiles(nodes[i].files, source, target, disk);
      SetFiles(i, files);
    }

    /** Folder::resolveFileNames: reads the name of each file of folder i
        in turn; the result is false when any read threw. ResolveRun states
        the outcome. */
    method ResolveFileNames(i: nat, s: Stream, testHashes: bool) returns (ok: bool)
      requires Valid() && i < |nodes|
      modifies this, s`pos, s`good
      ensures Valid()
      ensures var r := ResolveRun(old(nodes)[i].files, s.data, old(s.pos), old(s.good), testHashes);
        nodes == old(nodes)[i := WithFiles(old(nodes)[i], r.0)] && s.pos == r.1 && s.good == r.2
        && ok == r.3
    {
      var files;
      files, ok := ResolveNames(nodes[i].files, s, testHashes);
      SetFiles(i, files);
    }

    /** Stores files as the files of folder i: the entries the loops of
        writeFileData and resolveFileNames updated in place. */
    method SetFiles(i: nat, files: seq<File>)
      requires Valid() && i < |nodes|
      modifies this
      ensures Valid() && nodes == old(nodes)[i := WithFiles(old(nodes)[i], files)]
    {
      ghost var t := nodes;
      nodes := nodes[i := WithFiles(nodes[i], files)];
      Retouch(t, i, nodes[i]);
    }

    /** Folder::addFolder(file, fileNamesLength, endPos): reads the folder
        at the current position and places it below the root by its name,
        its files becoming the folder's own; placed is the arena right after
        placement. */
    method AddStoredFolder(s: Stream, fileNamesLength: U32, endPos: U32)
      returns (k: Option<nat>, newEnd: U32, ghost placed: seq<Folder>)
      requires Valid()
      modifies this, s`pos
      ensures Valid()
      ensures k.Some? <==> FolderAt(s.data, old(s.pos), fileNamesLength).Some?
      ensures k.None? ==> nodes == old(nodes)
      ensures k.Some? ==>
        var (f, e) := FolderAt(s.data, old(s.pos), fileNamesLength).value;
        && newEnd == Raised(endPos, e) && s.pos == old(s.pos) + FolderRecordSize
        && Placed(old(nodes), placed, Root, f, k.value) && k.value < |placed|
        && nodes == Settled(placed, k.value)
    {
      var folder;
      folder, newEnd := ReadFolder(s, fileNamesLength, endPos);
      if folder.None? {
        return None, newEnd, nodes;
      }
      var h := AddFolderInt(Root, folder.value);
      placed := nodes;
      nodes := Settled(nodes, h);
      Retouch(placed, h, nodes[h]);
      k := Some(h);
    }
  }

  /** The loop of Folder::writeData: the record of each file in turn. */
  method WriteRecords(files: seq<File>, s: Stream)
    requires s.pos <= |s.data|
    modifies s`data, s`pos
    ensures s.data == Splice(old(s.data), old(s.pos), Records(files))
    ensures s.pos == old(s.pos) + 16 * |files|
  {
    ghost var d0, p0 := s.data, s.pos;
    var j := 0;
    while j < |files|
      invariant j <= |files|
      invariant s.data == Splice(d0, p0, Records(files[..j])) && s.pos == p0 + 16 * j
    {
      WriteHeader(files[j], s);
      SpliceAppend(d0, p0, Records(files[..j]), RecordImage(files[j]));
      assert files[..j + 1][..j] == files[..j];
      j := j + 1;
    }
    assert files[..j] == files;
  }

  /** The loop of Folder::writeFileData over the files fs: each file's
      payload is written in turn, its entry updated, until the first error. */
  method WriteFiles(fs: seq<File>, source: Stream, target: Stream, disk: Disk)
    returns (files: seq<File>, e: ErrorCode)
    requires source != target && target.pos <= |target.data|
    modifies source`pos, target`data, target`pos
    ensures var r := FileRun(fs, source.data, disk, old(target.pos));
      && files == r.0 && target.data == Splice(old(target.data), old(target.pos), r.1)
      && target.pos == old(target.pos) + |r.1| && e == r.2
  {
    ghost var d0, p0 := target.data, target.pos;
    ghost var all := FileRun(fs, source.data, disk, p0);
    files := fs;
    ghost var done: seq<File> := [];
    ghost var written: seq<Byte> := [];
    assert fs[0..] == fs;
    var j := 0;
    while j < |fs|
      invariant j <= |fs| && |done| == j && files == done + fs[j..]
      invariant target.data == Splice(d0, p0, written) && target.pos == p0 + |written|
      invariant var r := FileRun(fs[j..], source.data, disk, target.pos);
        all.0 == done + r.0 && all.1 == written + r.1 && all.2 == r.2
    {
      var error;
      files, error, done, written := WriteNext(fs, j, files, source, target, disk, d0, p0, done, written, all);
      if error != ErrorNone {
        return files, error;
      }
      j := j + 1;
    }
    assert fs[j..] == [];
    assert done + [] == done && written + [] == written;
    e := ErrorNone;
  }

  /** One turn of writeFileData's loop: the j-th file's payload written
      after the bytes written so far; the run goes on when it succeeds and
      ends with its status otherwise. */
  method WriteNext(fs: seq<File>, j: nat, files: seq<File>, source: Stream, target: Stream, disk: Disk,
                   ghost d0: seq<Byte>, ghost p0: nat, ghost done: seq<File>, ghost written: seq<Byte>,
                   ghost all: (seq<File>, seq<Byte>, ErrorCode))
    returns (files': seq<File>, error: ErrorCode, ghost done': seq<File>, ghost written': seq<Byte>)
    requires j < |fs| && |done| == j && files == done + fs[j..] && source != target
    requires p0 <= |d0| && target.data == Splice(d0, p0, written) && target.pos == p0 + |written|
    requires var r := FileRun(fs[j..], source.data, disk, target.pos);
      all.0 == done + r.0 && all.1 == written + r.1 && all.2 == r.2
    modifies source`pos, target`data, target`pos
    ensures |done'| == j + 1 && files' == done' + fs[j + 1..]
    ensures target.data == Splice(d0, p0, written') && target.pos == p0 + |written'|
    ensures error == ErrorNone ==> var r := FileRun(fs[j + 1..], source.data, disk, target.pos);
      all.0 == done' + r.0 && all.1 == written' + r.1 && all.2 == r.2
    ensures error != ErrorNone ==> all.0 == files' && all.1 == written' && all.2 == error
  {
    ghost var p, before := target.pos, target.data;
    var g;
    g, error := WriteData(fs[j], source, target, disk);
    ghost var bytes := Payload(fs[j], source.data, disk);
    FileRunTurn(fs, j, source.data, disk, p, target.pos, done, written, all, g, bytes);
    SpliceStep(d0, p0, written, before, bytes, target.data);
    UpdateAt(files, done, fs, j, g);
    files' := files[j := g];
    done', written' := done + [g], written + bytes;
  }

  /** A write of b after the bytes written so far extends them by b. */
  lemma SpliceStep(d0: seq<Byte>, p0: nat, written: seq<Byte>, before: seq<Byte>, b: seq<Byte>,
                   after: seq<Byte>)
    requires p0 <= |d0| && before == Splice(d0, p0, written)
    requires after == Splice(before, p0 + |written|, b)
    ensures after == Splice(d0, p0, written + b)
  {
    SpliceAppend(d0, p0, written, b);
  }

  /** The loop of Folder::resolveFileNames over the files fs: each file's
      name is read in turn; ok is false when any read threw. */
  method ResolveNames(fs: seq<File>, s: Stream, testHashes: bool) returns (files: seq<File>, ok: bool)
    modifies s`pos, s`good
    ensures var r := ResolveRun(fs, s.data, old(s.pos), old(s.good), testHashes);
      files == r.0 && s.pos == r.1 && s.good == r.2 && ok == r.3
  {
    ghost var d := s.data;
    ghost var all := ResolveRun(fs, d, s.pos, s.good, testHashes);
    NamesStart(fs, d, s.pos, s.good, testHashes);
    files := fs;
    ghost var done: seq<File> := [];
    ok := true;
    var j := 0;
    while j < |fs|
      invariant j <= |fs| && s.data == d
      invariant NamesAhead(fs, j, d, s.pos, s.good, testHashes, files, ok, done, all)
    {
      files, ok, done := ReadNextName(fs, j, s, testHashes, files, ok, d, done, all);
      j := j + 1;
    }
    NamesEnd(fs, d, s.pos, s.good, testHashes, files, ok, done, all);
  }

  /** The state of the loop of resolveFileNames before file j: files holds
      the entries done so far and the rest unchanged, and reading the rest
      from p completes the whole run all. */
  ghost predicate NamesAhead(fs: seq<File>, j: nat, d: seq<Byte>, p: nat, good: bool, testHashes: bool,
                             files: seq<File>, ok: bool, done: seq<File>, all: (seq<File>, nat, bool, bool))
  {
    && j <= |fs| && |done| == j && files == done + fs[j..]
    && var r := ResolveRun(fs[j..], d, p, good, testHashes);
       all.0 == done + r.0 && all.1 == r.1 && all.2 == r.2 && all.3 == (ok && r.3)
  }

  /** Before the first file the whole run lies ahead. */
  lemma NamesStart(fs: seq<File>, d: seq<Byte>, p: nat, good: bool, testHashes: bool)
    ensures NamesAhead(fs, 0, d, p, good, testHashes, fs, true, [], ResolveRun(fs, d, p, good, testHashes))
  {
    assert fs[0..] == fs;
    assert [] + fs == fs;
  }

  /** After the last file the run is complete. */
  lemma NamesEnd(fs: seq<File>, d: seq<Byte>, p: nat, good: bool, testHashes: bool,
                 files: seq<File>, ok: bool, done: seq<File>, all: (seq<File>, nat, bool, bool))
    requires NamesAhead(fs, |fs|, d, p, good, testHashes, files, ok, done, all)
    ensures files == all.0 && p == all.1 && good == all.2 && ok == all.3
  {
    assert fs[|fs|..] == [];
    assert done + [] == done;
  }

  /** One turn of the loop of resolveFileNames: the name of the j-th file
      is read into its entry, and ok becomes false when that read threw. */
  method ReadNextName(fs: seq<File>, j: nat, s: Stream, testHashes: bool, files: seq<File>, ok: bool,
                      ghost d: seq<Byte>, ghost done: seq<File>, ghost all: (seq<File>, nat, bool, bool))
    returns (files': seq<File>, ok': bool, ghost done': seq<File>)
    requires j < |fs| && s.data == d
    requires NamesAhead(fs, j, d, s.pos, s.good, testHashes, files, ok, done, all)
    modifies s`pos, s`good
    ensures s.data == d
    ensures NamesAhead(fs, j + 1, d, s.pos, s.good, testHashes, files', ok', done', all)
  {
    ghost var p, good := s.pos, s.good;
    var g, threw := ReadFileName(fs[j], s, testHashes);
    ResolveTurn(fs, j, d, p, good, testHashes, done, ok, all, g, s.pos, s.good, threw);
    UpdateAt(files, done, fs, j, g);
    files' := files[j := g];
    done' := done + [g];
    ok' := ok && !threw;
  }

  /** The arena after placing a folder as k: its files become k's own. */
  function Settled(u: seq<Folder>, k: nat): (r: seq<Folder>)
    requires k < |u|
    ensures |r| == |u| && r[k] == u[k].(files := Owned(u[k].files, k))
    ensures forall x :: 0 <= x < |u| && x != k ==> r[x] == u[x]
  {
    u[k := u[k].(files := Owned(u[k].files, k))]
  }

  /** Two nodes in the same place of the arena: same parent, name and
      subfolders. */
  predicate SamePlace(a: Folder, b: Folder)
  {
    a.parent == b.parent && a.name == b.name && a.subFolders == b.subFolders
  }

  /** Changing a node's other fields keeps the arena a tree. */
  lemma Retouch(t: seq<Folder>, i: nat, f: Folder)
    requires Shaped(t) && i < |t| && SamePlace(t[i], f)
    ensures Shaped(t[i := f])
  {
    var u := t[i := f];
    assert Linked(u) by {
      forall x, j | 0 <= x < |u| && 0 <= j < |u[x].subFolders|
        ensures x < u[x].subFolders[j] < |u|
      {
        assert u[x].subFolders == t[x].subFolders;
      }
    }
    assert Rooted(u) by {
      forall c | 0 <= c < |u| && u[c].parent.Some?
        ensures u[c].parent.value < c
      {
        assert u[c].parent == t[c].parent;
      }
    }
    forall x, j | 0 <= x < |u| && 0 <= j < |u[x].subFolders|
      ensures u[u[x].subFolders[j]].parent == Some(x)
    {
      assert u[x].subFolders == t[x].subFolders;
      assert u[t[x].subFolders[j]].parent == t[t[x].subFolders[j]].parent;
    }
    forall c | 0 < c < |u|
      ensures u[c].parent.Some? && c in u[u[c].parent.value].subFolders
    {
      assert u[c].parent == t[c].parent;
      assert u[t[c].parent.value].subFolders == t[t[c].parent.value].subFolders;
    }
  }

  /** Arenas whose nodes all keep their places are trees alike. */
  lemma PlacesShaped(t: seq<Folder>, u: seq<Folder>)
    requires Shaped(t) && |u| == |t| && forall x :: 0 <= x < |t| ==> SamePlace(t[x], u[x])
    ensures Shaped(u)
  {
    assert Linked(u) by {
      forall x, j | 0 <= x < |u| && 0 <= j < |u[x].subFolders|
        ensures x < u[x].subFolders[j] < |u|
      {
        assert SamePlace(t[x], u[x]);
      }
    }
    assert Rooted(u) by {
      forall c | 0 <= c < |u| && u[c].parent.Some?
        ensures u[c].parent.value < c
      {
        assert SamePlace(t[c], u[c]);
      }
    }
    forall x, j | 0 <= x < |u| && 0 <= j < |u[x].subFolders|
      ensures u[u[x].subFolders[j]].parent == Some(x)
    {
      assert SamePlace(t[x], u[x]);
      assert SamePlace(t[t[x].subFolders[j]], u[t[x].subFolders[j]]);
    }
    forall c | 0 < c < |u|
      ensures u[c].parent.Some? && c in u[u[c].parent.value].subFolders
    {
      assert SamePlace(t[c], u[c]);
      assert SamePlace(t[t[c].parent.value], u[t[c].parent.value]);
    }
  }

  /** ... and keeps every folder's path. */
  lemma {:induction false} RetouchPath(t: seq<Folder>, i: nat, f: Folder, x: nat)
    requires i < |t| && Rooted(t) && Rooted(t[i := f]) && SamePlace(t[i], f) && x < |t|
    ensures FullPath(t[i := f], x) == FullPath(t, x)
    decreases x
  {
    assert t[i := f][x].parent == t[x].parent && t[i := f][x].name == t[x].name;
    if t[x].parent.Some? {
      RetouchPath(t, i, f, t[x].parent.value);
    }
  }

  /** Replacing the j-th element of done + fs[j..], done holding j
      elements, moves that element from the rest to done. */
  lemma UpdateAt<T>(xs: seq<T>, done: seq<T>, fs: seq<T>, j: nat, g: T)
    requires j < |fs| && |done| == j && xs == done + fs[j..]
    ensures xs[j := g] == (done + [g]) + fs[j + 1..]
  {
    assert fs[j..] == [fs[j]] + fs[j + 1..];
  }

  /** One turn of writeFileData's loop, at the j-th file, the target at
      p before and at q after the file's payload: done and written grow by
      the file's entry and payload, and the run goes on from q when the
      file's status is ErrorNone; otherwise the run ends with it. */
  lemma FileRunTurn(fs: seq<File>, j: nat, archive: seq<Byte>, disk: Disk, p: nat, q: nat,
                    done: seq<File>, written: seq<Byte>, all: (seq<File>, seq<Byte>, ErrorCode),
                    g: File, bytes: seq<Byte>)
    requires j < |fs| && g == WrittenEntry(fs[j], disk, p) && bytes == Payload(fs[j], archive, disk)
    requires q == p + |bytes|
    requires var r := FileRun(fs[j..], archive, disk, p);
      all.0 == done + r.0 && all.1 == written + r.1 && all.2 == r.2
    ensures WriteError(fs[j], archive, disk) == ErrorNone ==>
      var r := FileRun(fs[j + 1..], archive, disk, q);
      all.0 == (done + [g]) + r.0 && all.1 == (written + bytes) + r.1 && all.2 == r.2
    ensures WriteError(fs[j], archive, disk) != ErrorNone ==>
      all.0 == (done + [g]) + fs[j + 1..] && all.1 == written + bytes
      && all.2 == WriteError(fs[j], archive, disk)
  {
    var xs := fs[j..];
    assert xs[0] == fs[j] && xs[1..] == fs[j + 1..];
    FileRunFirst(xs, archive, disk, p);
    var e := WriteError(fs[j], archive, disk);
    if e == ErrorNone {
      var r := FileRun(fs[j + 1..], archive, disk, q);
      assert FileRun(xs, archive, disk, p) == ([g] + r.0, bytes + r.1, r.2);
      assert (done + [g]) + r.0 == done + ([g] + r.0);
      assert (written + bytes) + r.1 == written + (bytes + r.1);
    } else {
      assert FileRun(xs, archive, disk, p) == ([g] + fs[j + 1..], bytes, e);
      assert (done + [g]) + fs[j + 1..] == done + ([g] + fs[j + 1..]);
    }
  }

  /** FileRun over a non-empty run: the first file's entry, payload and
      status, then the rest of the run when the first succeeded. */
  lemma FileRunFirst(fs: seq<File>, archive: seq<Byte>, disk: Disk, p: nat)
    requires fs != []
    ensures var g, bytes := WrittenEntry(fs[0], disk, p), Payload(fs[0], archive, disk);
      var e, all := WriteError(fs[0], archive, disk), FileRun(fs, archive, disk, p);
      if e == ErrorNone then
        var r := FileRun(fs[1..], archive, disk, p + |bytes|);
        all.0 == [g] + r.0 && all.1 == bytes + r.1 && all.2 == r.2
      else
        all.0 == [g] + fs[1..] && all.1 == bytes && all.2 == e
  {
  }

  /** One turn of resolveFileNames' loop, at the j-th file and position p. */
  lemma ResolveTurn(fs: seq<File>, j: nat, d: seq<Byte>, p: nat, good: bool, testHashes: bool,
                    done: seq<File>, ok: bool, all: (seq<File>, nat, bool, bool), g: File, q: nat,
                    good': bool, threw: bool)
    requires j < |fs| && (g, q, good', threw) == ResolvedName(fs[j], d, p, good, testHashes)
    requires var r := ResolveRun(fs[j..], d, p, good, testHashes);
      all.0 == done + r.0 && all.1 == r.1 && all.2 == r.2 && all.3 == (ok && r.3)
    ensures var r := ResolveRun(fs[j + 1..], d, q, good', testHashes);
      all.0 == (done + [g]) + r.0 && all.1 == r.1 && all.2 == r.2 && all.3 == ((ok && !threw) && r.3)
  {
    var xs := fs[j..];
    assert xs[0] == fs[j] && xs[1..] == fs[j + 1..];
    var r := ResolveRun(fs[j + 1..], d, q, good', testHashes);
    assert ResolveRun(xs, d, p, good, testHashes) == ([g] + r.0, r.1, r.2, !threw && r.3);
    assert done + ([g] + r.0) == (done + [g]) + r.0;
  }

  /** Appending a new folder f as the last subfolder of i keeps the arena
      a tree. */
  lemma Attach(t: seq<Folder>, i: nat, f: Folder, u: seq<Folder>)
    requires Shaped(t) && i < |t| && f.parent == Some(i) && f.subFolders == []
    requires u == t[i := t[i].(subFolders := t[i].subFolders + [|t|])] + [f]
    ensures Shaped(u) && Grown(t, u)
  {
    AttachGrown(t, i, f, u);
    AttachLinked(t, i, f, u);
    AttachParents(t, i, f, u);
    AttachListed(t, i, f, u);
  }

  lemma AttachGrown(t: seq<Folder>, i: nat, f: Folder, u: seq<Folder>)
    requires i < |t| && u == t[i := t[i].(subFolders := t[i].subFolders + [|t|])] + [f]
    ensures Grown(t, u)
  {
    forall x | 0 <= x < |t|
      ensures u[x] == t[x].(subFolders := u[x].subFolders) && t[x].subFolders <= u[x].subFolders
    {
      if x == i {
        assert t[i].subFolders <= t[i].subFolders + [|t|];
      }
    }
  }

  lemma AttachLinked(t: seq<Folder>, i: nat, f: Folder, u: seq<Folder>)
    requires Shaped(t) && i < |t| && f.parent == Some(i) && f.subFolders == []
    requires u == t[i := t[i].(subFolders := t[i].subFolders + [|t|])] + [f]
    ensures Linked(u) && Rooted(u)
  {
    forall x, j | 0 <= x < |u| && 0 <= j < |u[x].subFolders|
      ensures x < u[x].subFolders[j] < |u|
    {
      if x != i || j < |t[i].subFolders| {
        assert u[x].subFolders[j] == t[x].subFolders[j];
      }
    }
    forall c | 0 <= c < |u| && u[c].parent.Some?
      ensures u[c].parent.value < c
    {
      if c < |t| {
        assert u[c].parent == t[c].parent;
      }
    }
  }

  lemma AttachParents(t: seq<Folder>, i: nat, f: Folder, u: seq<Folder>)
    requires Shaped(t) && i < |t| && f.parent == Some(i) && f.subFolders == []
    requires u == t[i := t[i].(subFolders := t[i].subFolders + [|t|])] + [f]
    ensures forall x, j :: 0 <= x < |u| && 0 <= j < |u[x].subFolders| ==>
              u[x].subFolders[j] < |u| && u[u[x].subFolders[j]].parent == Some(x)
  {
    forall x, j | 0 <= x < |u| && 0 <= j < |u[x].subFolders|
      ensures u[x].subFolders[j] < |u| && u[u[x].subFolders[j]].parent == Some(x)
    {
      if x != i || j < |t[i].subFolders| {
        assert u[x].subFolders[j] == t[x].subFolders[j];
      }
    }
  }

  lemma AttachListed(t: seq<Folder>, i: nat, f: Folder, u: seq<Folder>)
    requires Shaped(t) && i < |t| && f.parent == Some(i) && f.subFolders == []
    requires u == t[i := t[i].(subFolders := t[i].subFolders + [|t|])] + [f]
    ensures forall c :: 0 < c < |u| ==>
              u[c].parent.Some? && u[c].parent.value < |u| && c in u[u[c].parent.value].subFolders
  {
    forall c | 0 < c < |u|
      ensures u[c].parent.Some? && u[c].parent.value < |u| && c in u[u[c].parent.value].subFolders
    {
      if c < |t| {
        var p := t[c].parent.value;
        assert c in t[p].subFolders;
        assert t[p].subFolders <= u[p].subFolders;
      } else {
        assert u[i].subFolders[|t[i].subFolders|] == c;
      }
    }
  }

  /** One turn of collectFiles' loop over the subfolders. */
  lemma FilesStep(t: seq<Folder>, i: nat, cs: seq<nat>, k: nat, own: seq<File>,
                  r: seq<File>, r': seq<File>)
    requires Linked(t) && i < |t| && After(t, i, cs) && k < |cs|
    requires r == own + FilesOf(t, i, cs[..k])
    requires r' == r + FilesFrom(t, cs[k])
    ensures r' == own + FilesOf(t, i, cs[..k + 1])
  {
    assert cs[..k + 1][..k] == cs[..k];
  }

  /** One turn of collectFolders' loop. */
  lemma FoldersStep(t: seq<Folder>, i: nat, cs: seq<nat>, k: nat, own: seq<nat>,
                    r: seq<nat>, r1: seq<nat>, r': seq<nat>)
    requires Linked(t) && i < |t| && After(t, i, cs) && k < |cs|
    requires r == own + FoldersOf(t, i, cs[..k])
    requires r1 == r + if |t[cs[k]].files| != 0 then [cs[k]] else []
    requires r' == r1 + FoldersBelow(t, cs[k])
    ensures r' == own + FoldersOf(t, i, cs[..k + 1])
  {
    assert cs[..k + 1][..k] == cs[..k];
  }

  /** One turn of collectFolderNames' loop. */
  lemma FolderNamesStep(t: seq<Folder>, i: nat, cs: seq<nat>, k: nat, own: seq<seq<Byte>>,
                        r: seq<seq<Byte>>, r': seq<seq<Byte>>)
    requires Linked(t) && Rooted(t) && i < |t| && After(t, i, cs) && k < |cs|
    requires r == own + NamesOf(t, i, cs[..k])
    requires r' == r + FolderNames(t, cs[k])
    ensures r' == own + NamesOf(t, i, cs[..k + 1])
  {
    assert cs[..k + 1][..k] == cs[..k];
  }

  /** One turn of collectFileNames' loop: the names below subfolder k
      extend those below the subfolders before it. */
  lemma FileNamesStep(t: seq<Folder>, i: nat, cs: seq<nat>, k: nat, own: seq<seq<Byte>>,
                      r: seq<seq<Byte>>, r': seq<seq<Byte>>)
    requires Linked(t) && i < |t| && After(t, i, cs) && k < |cs|
    requires r == own + FileNames(FilesOf(t, i, cs[..k]))
    requires r' == r + FileNames(FilesFrom(t, cs[k]))
    ensures r' == own + FileNames(FilesOf(t, i, cs[..k + 1]))
  {
    NamesOfNextFolder(t, i, cs, k);
  }

  lemma NamesOfNextFolder(t: seq<Folder>, i: nat, cs: seq<nat>, k: nat)
    requires Linked(t) && i < |t| && After(t, i, cs) && k < |cs|
    ensures FileNames(FilesOf(t, i, cs[..k + 1]))
      == FileNames(FilesOf(t, i, cs[..k])) + FileNames(FilesFrom(t, cs[k]))
  {
    assert cs[..k + 1][..k] == cs[..k];
    FileNamesAppend(FilesOf(t, i, cs[..k]), FilesFrom(t, cs[k]));
  }

  lemma FileNamesAppend(a: seq<File>, b: seq<File>)
    ensures FileNames(a + b) == FileNames(a) + FileNames(b)
  {
    var l, r := FileNames(a + b), FileNames(a) + FileNames(b);
    forall k | 0 <= k < |l|
      ensures l[k] == r[k]
    {
      if k < |a| {
        assert (a + b)[k] == a[k];
      } else {
        assert (a + b)[k] == b[k - |a|];
      }
    }
  }

}
