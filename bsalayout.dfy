/** The part of an archive Archive::write lays out folder by folder: the
    folder records, the data blocks with each folder's path and file
    records, and the payloads of the files; and what writing them does to
    the folder tree. hs is the list of folders collectFolders gives. */
module BsaLayout {
  import opened BsaTypes
  import opened Bits
  import opened BsaFile
  import opened BsaFolder

  // ---------------------------------------------------------------------
  // What is written, for the first n folders of hs

  /** The records of the first n folders of hs, one after another. */
  function FolderRecords(t: seq<Folder>, hs: seq<nat>, n: nat): (r: seq<Byte>)
    requires Handles(t, hs) && n <= |hs|
    ensures |r| == FolderRecordSize * n
  {
    if n == 0 then [] else FolderRecords(t, hs, n - 1) + FolderRecord(t[hs[n - 1]])
  }

  /** The names of the files of the first n folders of hs, folder by
      folder: the list write stores after the data blocks. */
  function ListedNames(t: seq<Folder>, hs: seq<nat>, n: nat): (r: seq<seq<Byte>>)
    requires Handles(t, hs) && n <= |hs|
  {
    if n == 0 then [] else ListedNames(t, hs, n - 1) + FileNames(t[hs[n - 1]].files)
  }

  /** The data blocks of the first n folders of hs, one after another. */
  function Blocks(t: seq<Folder>, hs: seq<nat>, n: nat): (r: seq<Byte>)
    requires Rooted(t) && Handles(t, hs) && n <= |hs|
  {
    if n == 0 then [] else Blocks(t, hs, n - 1) + DataBlock(FullPath(t, hs[n - 1]), t[hs[n - 1]].files)
  }

  /** The length of folder h's data block: its path as a bstring (cut at
      254 characters), then one record per file. */
  function BlockSize(t: seq<Folder>, h: nat): nat
    requires Rooted(t) && h < |t|
  {
    var n := |FullPath(t, h)|;
    (if n < 255 then n else 255) + 2 + RecordSize * |t[h].files|
  }

  /** The length of the data blocks of the first n folders of hs. */
  function BlocksLength(t: seq<Folder>, hs: seq<nat>, n: nat): nat
    requires Rooted(t) && Handles(t, hs) && n <= |hs|
  {
    if n == 0 then 0 else BlocksLength(t, hs, n - 1) + BlockSize(t, hs[n - 1])
  }

  lemma {:induction false} BlocksLengthIs(t: seq<Folder>, hs: seq<nat>, n: nat)
    requires Rooted(t) && Handles(t, hs) && n <= |hs|
    ensures |Blocks(t, hs, n)| == BlocksLength(t, hs, n)
  {
    if n != 0 {
      BlocksLengthIs(t, hs, n - 1);
    }
  }

  /** The arena after the writeData loop over the first n folders of hs,
      from p: each folder in turn records the offset of its block. */
  function Stamped(t: seq<Folder>, hs: seq<nat>, n: nat, p: nat, fileNamesLength: U32): (r: seq<Folder>)
    requires Rooted(t) && Handles(t, hs) && n <= |hs|
    ensures |r| == |t|
  {
    if n == 0 then t
    else
      var u := Stamped(t, hs, n - 1, p, fileNamesLength);
      u[hs[n - 1] := WithOffset(u[hs[n - 1]], Offset(p + BlocksLength(t, hs, n - 1), fileNamesLength))]
  }

  /** The arena and the bytes after the writeFileData loop over the first
      n folders of hs, the output at pos: the payloads of each folder's
      files in turn. A folder's failure ends its own run only; the loop
      goes on with the next folder. */
  function Delivered(t: seq<Folder>, hs: seq<nat>, n: nat, archive: seq<Byte>, disk: Disk, pos: nat)
    : (r: (seq<Folder>, seq<Byte>))
    requires Handles(t, hs) && n <= |hs|
    ensures |r.0| == |t|
  {
    if n == 0 then (t, [])
    else
      var before := Delivered(t, hs, n - 1, archive, disk, pos);
      var u, h := before.0, hs[n - 1];
      var run := FileRun(u[h].files, archive, disk, pos + |before.1|);
      (u[h := WithFiles(u[h], run.0)], before.1 + run.1)
  }

  /** The arena and the payload bytes after the first pass of write,
      which starts at p after the header: the folder records (placeholders
      still), the data blocks (each folder recording where its own starts)
      and the file names come first, the payloads after them. */
  function PayloadPass(t: seq<Folder>, hs: seq<nat>, names: seq<seq<Byte>>, archive: seq<Byte>, disk: Disk,
                       fileNamesLength: U32, p: nat): (r: (seq<Folder>, seq<Byte>))
    requires Rooted(t) && Handles(t, hs)
    ensures |r.0| == |t|
  {
    var start := p + FolderRecordSize * |hs|;
    Delivered(Stamped(t, hs, |hs|, start, fileNamesLength), hs, |hs|, archive, disk,
              start + |Blocks(t, hs, |hs|)| + |ZStrings(names)|)
  }

  /** The arena and the bytes after both passes of write from p: the
      second pass rewrites the folder records and the data blocks over those
      of the first, with the offsets the first recorded, and leaves the
      arena as it is. */
  function Passes(t: seq<Folder>, hs: seq<nat>, names: seq<seq<Byte>>, archive: seq<Byte>, disk: Disk,
                  fileNamesLength: U32, p: nat): (r: (seq<Folder>, seq<Byte>))
    requires Rooted(t) && Handles(t, hs)
    ensures |r.0| == |t|
  {
    var run := PayloadPass(t, hs, names, archive, disk, fileNamesLength, p);
    PayloadPassAlike(t, hs, names, archive, disk, fileNamesLength, p);
    (run.0, FolderRecords(run.0, hs, |hs|) + Blocks(run.0, hs, |hs|) + (ZStrings(names) + run.1))
  }

  // ---------------------------------------------------------------------
  // Arenas that differ only in what the write passes change

  /** t and u have the same folders in the same places with as many
      files each: they differ at most in the files' entries and in the
      recorded offsets. */
  predicate Alike(t: seq<Folder>, u: seq<Folder>)
  {
    && |t| == |u|
    && forall x :: 0 <= x < |t| ==> SamePlace(t[x], u[x]) && |t[x].files| == |u[x].files|
  }

  lemma AlikeRooted(t: seq<Folder>, u: seq<Folder>)
    requires Rooted(t) && Alike(t, u)
    ensures Rooted(u)
  {
    forall c | 0 <= c < |u| && u[c].parent.Some?
      ensures u[c].parent.value < c
    {
      assert SamePlace(t[c], u[c]);
    }
  }

  /** Alike arenas give every folder the same path. */
  lemma {:induction false} AlikePath(t: seq<Folder>, u: seq<Folder>, x: nat)
    requires Rooted(t) && Rooted(u) && Alike(t, u) && x < |t|
    ensures FullPath(u, x) == FullPath(t, x)
    decreases x
  {
    assert SamePlace(t[x], u[x]);
    if t[x].parent.Some? {
      AlikePath(t, u, t[x].parent.value);
    }
  }

  /** ... and data blocks of the same lengths. */
  lemma {:induction false} AlikeLength(t: seq<Folder>, u: seq<Folder>, hs: seq<nat>, n: nat)
    requires Rooted(t) && Rooted(u) && Alike(t, u) && Handles(t, hs) && Handles(u, hs) && n <= |hs|
    ensures BlocksLength(u, hs, n) == BlocksLength(t, hs, n)
  {
    if n != 0 {
      AlikeLength(t, u, hs, n - 1);
      AlikePath(t, u, hs[n - 1]);
    }
  }

  lemma AlikeBlocks(t: seq<Folder>, u: seq<Folder>, hs: seq<nat>, n: nat)
    requires Rooted(t) && Rooted(u) && Alike(t, u) && Handles(t, hs) && Handles(u, hs) && n <= |hs|
    ensures |Blocks(u, hs, n)| == |Blocks(t, hs, n)|
  {
    AlikeLength(t, u, hs, n);
    BlocksLengthIs(t, hs, n);
    BlocksLengthIs(u, hs, n);
  }

  /** Stamping changes only the recorded offsets. */
  lemma {:induction false} StampedOffsets(t: seq<Folder>, hs: seq<nat>, n: nat, p: nat, fileNamesLength: U32)
    requires Rooted(t) && Handles(t, hs) && n <= |hs|
    ensures var r := Stamped(t, hs, n, p, fileNamesLength);
      forall x :: 0 <= x < |t| ==> r[x] == t[x].(offsetWrite := r[x].offsetWrite)
  {
    if n != 0 {
      StampedOffsets(t, hs, n - 1, p, fileNamesLength);
    }
  }

  lemma StampedAlike(t: seq<Folder>, hs: seq<nat>, n: nat, p: nat, fileNamesLength: U32)
    requires Rooted(t) && Handles(t, hs) && n <= |hs|
    ensures Alike(t, Stamped(t, hs, n, p, fileNamesLength))
    ensures Rooted(Stamped(t, hs, n, p, fileNamesLength))
  {
    StampedOffsets(t, hs, n, p, fileNamesLength);
    AlikeRooted(t, Stamped(t, hs, n, p, fileNamesLength));
  }

  /** Writing payloads changes only the files' entries, not their number. */
  lemma {:induction false} DeliveredFiles(t: seq<Folder>, hs: seq<nat>, n: nat, archive: seq<Byte>, disk: Disk, pos: nat)
    requires Handles(t, hs) && n <= |hs|
    ensures var r := Delivered(t, hs, n, archive, disk, pos).0;
      forall x :: 0 <= x < |t| ==> r[x] == t[x].(files := r[x].files) && |r[x].files| == |t[x].files|
  {
    if n != 0 {
      DeliveredFiles(t, hs, n - 1, archive, disk, pos);
      var before := Delivered(t, hs, n - 1, archive, disk, pos);
      var u, h := before.0, hs[n - 1];
      var run := FileRun(u[h].files, archive, disk, pos + |before.1|);
      var r := Delivered(t, hs, n, archive, disk, pos).0;
      assert r == u[h := WithFiles(u[h], run.0)];
      forall x | 0 <= x < |t|
        ensures r[x] == t[x].(files := r[x].files) && |r[x].files| == |t[x].files|
      {
        if x != h {
          assert r[x] == u[x];
        }
      }
    }
  }

  /** ... and leaves the arena a tree. */
  lemma DeliveredShaped(t: seq<Folder>, hs: seq<nat>, n: nat, archive: seq<Byte>, disk: Disk, pos: nat)
    requires Shaped(t) && Handles(t, hs) && n <= |hs|
    ensures Shaped(Delivered(t, hs, n, archive, disk, pos).0)
  {
    var u := Delivered(t, hs, n, archive, disk, pos).0;
    DeliveredFiles(t, hs, n, archive, disk, pos);
    forall x | 0 <= x < |t|
      ensures SamePlace(t[x], u[x])
    {
    }
    PlacesShaped(t, u);
  }

  /** The first pass leaves the folders in place with as many files, and
      records in each the offset stamping records. */
  lemma PayloadPassAlike(t: seq<Folder>, hs: seq<nat>, names: seq<seq<Byte>>, archive: seq<Byte>, disk: Disk,
                       fileNamesLength: U32, p: nat)
    requires Rooted(t) && Handles(t, hs)
    ensures var u := PayloadPass(t, hs, names, archive, disk, fileNamesLength, p).0;
      && Alike(t, u) && Rooted(u)
      && OffsetsStamped(t, u, hs, p + FolderRecordSize * |hs|, fileNamesLength)
  {
    var start := p + FolderRecordSize * |hs|;
    var q := start + |Blocks(t, hs, |hs|)| + |ZStrings(names)|;
    var s := Stamped(t, hs, |hs|, start, fileNamesLength);
    PayloadPassIs(t, hs, names, archive, disk, fileNamesLength, p, start, q);
    var u := Delivered(s, hs, |hs|, archive, disk, q).0;
    StampedOffsets(t, hs, |hs|, start, fileNamesLength);
    DeliveredFiles(s, hs, |hs|, archive, disk, q);
    forall x | 0 <= x < |t|
      ensures SamePlace(t[x], u[x]) && |t[x].files| == |u[x].files| && u[x].offsetWrite == s[x].offsetWrite
    {
      assert s[x] == t[x].(offsetWrite := s[x].offsetWrite);
      assert u[x] == s[x].(files := u[x].files);
    }
    assert OffsetsStamped(t, u, hs, start, fileNamesLength);
    assert u == PayloadPass(t, hs, names, archive, disk, fileNamesLength, p).0;
    AlikeRooted(t, u);
  }

  // ---------------------------------------------------------------------
  // The offsets the passes record

  /** Stamping an arena alike to t records, for a folder among those
      stamped, the offset stamping t records. */
  lemma {:induction false} StampHit(t: seq<Folder>, u: seq<Folder>, hs: seq<nat>, n: nat, p: nat,
                                    fileNamesLength: U32, k: nat)
    requires Rooted(t) && Rooted(u) && Alike(t, u) && Handles(t, hs) && Handles(u, hs) && k < n <= |hs|
    ensures Stamped(u, hs, n, p, fileNamesLength)[hs[k]].offsetWrite
      == Stamped(t, hs, n, p, fileNamesLength)[hs[k]].offsetWrite
  {
    if hs[k] == hs[n - 1] {
      AlikeLength(t, u, hs, n - 1);
    } else {
      StampHit(t, u, hs, n - 1, p, fileNamesLength, k);
      StampEarlier(u, hs, n, p, fileNamesLength, hs[k]);
      StampEarlier(t, hs, n, p, fileNamesLength, hs[k]);
    }
  }

  /** The folder stamped last records where its block starts. */
  lemma StampLast(t: seq<Folder>, hs: seq<nat>, n: nat, p: nat, fileNamesLength: U32)
    requires Rooted(t) && Handles(t, hs) && 0 < n <= |hs|
    ensures Stamped(t, hs, n, p, fileNamesLength)[hs[n - 1]].offsetWrite
      == Offset(p + BlocksLength(t, hs, n - 1), fileNamesLength)
  {
  }

  /** Stamping the n-th folder of hs leaves the other folders as they were. */
  lemma StampEarlier(t: seq<Folder>, hs: seq<nat>, n: nat, p: nat, fileNamesLength: U32, x: nat)
    requires Rooted(t) && Handles(t, hs) && 0 < n <= |hs| && x < |t| && x != hs[n - 1]
    ensures Stamped(t, hs, n, p, fileNamesLength)[x] == Stamped(t, hs, n - 1, p, fileNamesLength)[x]
    ensures Stamped(t, hs, n, p, fileNamesLength)[x].offsetWrite
      == Stamped(t, hs, n - 1, p, fileNamesLength)[x].offsetWrite
  {
  }

  /** Stamping leaves a folder not among those stamped as it was. */
  lemma {:induction false} StampMiss(u: seq<Folder>, hs: seq<nat>, n: nat, p: nat, fileNamesLength: U32, x: nat)
    requires Rooted(u) && Handles(u, hs) && n <= |hs| && x < |u|
    requires forall k :: 0 <= k < n ==> hs[k] != x
    ensures Stamped(u, hs, n, p, fileNamesLength)[x] == u[x]
  {
    if n != 0 {
      StampMiss(u, hs, n - 1, p, fileNamesLength, x);
      StampEarlier(u, hs, n, p, fileNamesLength, x);
    }
  }

  /** u records, in every folder, the offset stamping t from p records. */
  predicate OffsetsStamped(t: seq<Folder>, u: seq<Folder>, hs: seq<nat>, p: nat, fileNamesLength: U32)
    requires Rooted(t) && Handles(t, hs) && |u| == |t|
  {
    forall x :: 0 <= x < |t| ==> u[x].offsetWrite == Stamped(t, hs, |hs|, p, fileNamesLength)[x].offsetWrite
  }

  /** The second writeData pass changes nothing: once the payloads are
      written (they change only the files' entries), every folder of hs
      already records the offset the pass would record again. */
  lemma Restamp(t: seq<Folder>, u: seq<Folder>, hs: seq<nat>, p: nat, fileNamesLength: U32)
    requires Rooted(t) && Handles(t, hs) && Alike(t, u) && OffsetsStamped(t, u, hs, p, fileNamesLength)
    ensures Rooted(u) && Stamped(u, hs, |hs|, p, fileNamesLength) == u
  {
    AlikeRooted(t, u);
    assert Handles(u, hs);
    StampedOffsets(u, hs, |hs|, p, fileNamesLength);
    var r := Stamped(u, hs, |hs|, p, fileNamesLength);
    forall x | 0 <= x < |u|
      ensures r[x] == u[x]
    {
      if k :| 0 <= k < |hs| && hs[k] == x {
        StampHit(t, u, hs, |hs|, p, fileNamesLength, k);
      } else {
        StampMiss(u, hs, |hs|, p, fileNamesLength, x);
      }
    }
  }

  /** Every folder among the first n of hs records the offset of one of
      its own blocks: the block of some j-th entry of hs that is that
      folder. */
  lemma {:induction false} StampPoints(t: seq<Folder>, hs: seq<nat>, n: nat, p: nat, fileNamesLength: U32, k: nat)
    returns (j: nat)
    requires Rooted(t) && Handles(t, hs) && k < n <= |hs|
    ensures j < n && hs[j] == hs[k]
    ensures Stamped(t, hs, n, p, fileNamesLength)[hs[k]].offsetWrite == Offset(p + BlocksLength(t, hs, j), fileNamesLength)
  {
    if hs[k] == hs[n - 1] {
      j := n - 1;
      StampLast(t, hs, n, p, fileNamesLength);
    } else {
      j := StampPoints(t, hs, n - 1, p, fileNamesLength, k);
      StampEarlier(t, hs, n, p, fileNamesLength, hs[k]);
    }
  }

  /** The blocks of the first m folders begin the blocks of the first n. */
  lemma {:induction false} BlocksPrefix(t: seq<Folder>, hs: seq<nat>, m: nat, n: nat)
    requires Rooted(t) && Handles(t, hs) && m <= n <= |hs|
    ensures Blocks(t, hs, m) <= Blocks(t, hs, n)
  {
    if m < n {
      BlocksPrefix(t, hs, m, n - 1);
      PrefixExtends(Blocks(t, hs, m), Blocks(t, hs, n - 1), DataBlock(FullPath(t, hs[n - 1]), t[hs[n - 1]].files));
    }
  }

  /** The j-th block lies where the offset recorded for it, less
      fileNamesLength, says. */
  lemma BlockAt(t: seq<Folder>, hs: seq<nat>, j: nat)
    requires Rooted(t) && Handles(t, hs) && j < |hs|
    ensures var q, b := |Blocks(t, hs, j)|, DataBlock(FullPath(t, hs[j]), t[hs[j]].files);
      q + |b| <= |Blocks(t, hs, |hs|)| && Blocks(t, hs, |hs|)[q..q + |b|] == b
  {
    BlocksPrefix(t, hs, j + 1, |hs|);
    PrefixSlice(Blocks(t, hs, |hs|), Blocks(t, hs, j), DataBlock(FullPath(t, hs[j]), t[hs[j]].files));
  }

  /** A prefix of a is one of a + b. */
  lemma PrefixExtends(x: seq<Byte>, a: seq<Byte>, b: seq<Byte>)
    requires x <= a
    ensures x <= a + b
  {
    assert (a + b)[..|x|] == a[..|x|];
  }

  /** The second part of a prefix a + b of all lies right after the first. */
  lemma PrefixSlice(all: seq<Byte>, a: seq<Byte>, b: seq<Byte>)
    requires a + b <= all
    ensures |a| + |b| <= |all| && all[|a|..|a| + |b|] == b
  {
    assert all[|a|..|a| + |b|] == (a + b)[|a|..];
  }

  // ---------------------------------------------------------------------
  // The loops of Archive::write

  /** The loop over the folders calling Folder::writeHeader. */
  method WriteFolderRecords(tree: Tree, hs: seq<nat>, s: Stream)
    requires Handles(tree.nodes, hs) && s.pos <= |s.data|
    modifies s`data, s`pos
    ensures s.data == Splice(old(s.data), old(s.pos), FolderRecords(tree.nodes, hs, |hs|))
    ensures s.pos == old(s.pos) + FolderRecordSize * |hs|
  {
    ghost var d0, p0 := s.data, s.pos;
    var j := 0;
    while j < |hs|
      invariant j <= |hs|
      invariant s.data == Splice(d0, p0, FolderRecords(tree.nodes, hs, j))
      invariant s.pos == p0 + FolderRecordSize * j
    {
      tree.WriteHeader(hs[j], s);
      SpliceAppend(d0, p0, FolderRecords(tree.nodes, hs, j), FolderRecord(tree.nodes[hs[j]]));
      j := j + 1;
    }
  }

  /** The loop over the folders calling Folder::writeData: the blocks,
      each folder recording where its own starts. */
  method WriteBlocks(tree: Tree, hs: seq<nat>, s: Stream, fileNamesLength: U32)
    requires tree.Valid() && Handles(tree.nodes, hs) && s.pos <= |s.data|
    modifies tree, s`data, s`pos
    ensures tree.Valid() && tree.nodes == Stamped(old(tree.nodes), hs, |hs|, old(s.pos), fileNamesLength)
    ensures s.data == Splice(old(s.data), old(s.pos), Blocks(old(tree.nodes), hs, |hs|))
    ensures s.pos == old(s.pos) + |Blocks(old(tree.nodes), hs, |hs|)|
  {
    ghost var t, d0, p0 := tree.nodes, s.data, s.pos;
    var j := 0;
    while j < |hs|
      invariant j <= |hs| && tree.Valid() && Rooted(t)
      invariant tree.nodes == Stamped(t, hs, j, p0, fileNamesLength)
      invariant s.data == Splice(d0, p0, Blocks(t, hs, j)) && s.pos == p0 + |Blocks(t, hs, j)|
    {
      BlockNext(tree, hs, j, s, fileNamesLength, t, d0, p0);
      j := j + 1;
    }
  }

  /** One turn of the writeData loop: the j-th folder's block. */
  method BlockNext(tree: Tree, hs: seq<nat>, j: nat, s: Stream, fileNamesLength: U32,
                   ghost t: seq<Folder>, ghost d0: seq<Byte>, ghost p0: nat)
    requires j < |hs| && tree.Valid() && Rooted(t) && Handles(t, hs) && p0 <= |d0|
    requires tree.nodes == Stamped(t, hs, j, p0, fileNamesLength)
    requires s.data == Splice(d0, p0, Blocks(t, hs, j)) && s.pos == p0 + |Blocks(t, hs, j)|
    modifies tree, s`data, s`pos
    ensures tree.Valid() && tree.nodes == Stamped(t, hs, j + 1, p0, fileNamesLength)
    ensures s.data == Splice(d0, p0, Blocks(t, hs, j + 1)) && s.pos == p0 + |Blocks(t, hs, j + 1)|
  {
    BlockStep(t, hs, j, p0, fileNamesLength);
    BlocksLengthIs(t, hs, j);
    StampNext(t, hs, j, p0, fileNamesLength, s.pos);
    BlocksNext(t, hs, j, d0, p0, s.pos);
    tree.WriteData(hs[j], s, fileNamesLength);
  }

  /** What one turn of the writeData loop relies on: the folder's path and
      files are as in the arena before the loop. */
  lemma BlockStep(t: seq<Folder>, hs: seq<nat>, j: nat, p: nat, fileNamesLength: U32)
    requires j < |hs| && Rooted(t) && Handles(t, hs)
    ensures var u, h := Stamped(t, hs, j, p, fileNamesLength), hs[j];
      Rooted(u) && FullPath(u, h) == FullPath(t, h) && u[h].files == t[h].files
  {
    var u := Stamped(t, hs, j, p, fileNamesLength);
    StampedAlike(t, hs, j, p, fileNamesLength);
    StampedOffsets(t, hs, j, p, fileNamesLength);
    AlikePath(t, u, hs[j]);
  }

  /** Stamping one more folder records the start of its block. */
  lemma StampNext(t: seq<Folder>, hs: seq<nat>, j: nat, p: nat, fileNamesLength: U32, q: nat)
    requires j < |hs| && Rooted(t) && Handles(t, hs) && q == p + BlocksLength(t, hs, j)
    ensures var u, h := Stamped(t, hs, j, p, fileNamesLength), hs[j];
      Stamped(t, hs, j + 1, p, fileNamesLength) == u[h := WithOffset(u[h], Offset(q, fileNamesLength))]
  {
  }

  /** Writing one more block after the blocks before it, at p in d0. */
  lemma BlocksNext(t: seq<Folder>, hs: seq<nat>, j: nat, d0: seq<Byte>, p: nat, q: nat)
    requires j < |hs| && Rooted(t) && Handles(t, hs) && p <= |d0| && q == p + |Blocks(t, hs, j)|
    ensures var b := DataBlock(FullPath(t, hs[j]), t[hs[j]].files);
      && Blocks(t, hs, j + 1) == Blocks(t, hs, j) + b
      && Splice(Splice(d0, p, Blocks(t, hs, j)), q, b) == Splice(d0, p, Blocks(t, hs, j + 1))
      && q + |b| == p + |Blocks(t, hs, j + 1)|
  {
    SpliceAppend(d0, p, Blocks(t, hs, j), DataBlock(FullPath(t, hs[j]), t[hs[j]].files));
  }

  /** The loop over the folders calling Folder::writeFileData, whose
      statuses it ignores. */
  method WritePayloads(tree: Tree, hs: seq<nat>, source: Stream, target: Stream, disk: Disk,
                       ghost t: seq<Folder>, ghost p0: nat, ghost archive: seq<Byte>)
    requires Shaped(t) && tree.nodes == t && Handles(t, hs) && source != target && source.data == archive
    requires target.pos == p0 <= |target.data|
    modifies tree, source`pos, target`data, target`pos
    ensures tree.Valid()
    ensures var r := Delivered(t, hs, |hs|, archive, disk, p0);
      && tree.nodes == r.0 && target.data == Splice(old(target.data), p0, r.1) && target.pos == p0 + |r.1|
  {
    ghost var d0 := target.data;
    var j := 0;
    while j < |hs|
      invariant j <= |hs|
      invariant PayloadsDone(t, hs, j, archive, disk, d0, p0, tree.nodes, target.data, target.pos)
    {
      PayloadNext(tree, hs, j, source, target, disk, t, d0, p0, archive);
      j := j + 1;
    }
    DeliveredShaped(t, hs, |hs|, archive, disk, p0);
  }

  /** After the first j turns of the writeFileData loop, started at p0 on
      the bytes d0: the arena and the target stream are as Delivered says. */
  ghost predicate PayloadsDone(t: seq<Folder>, hs: seq<nat>, j: nat, archive: seq<Byte>, disk: Disk,
                               d0: seq<Byte>, p0: nat, nodes: seq<Folder>, data: seq<Byte>, pos: nat)
    requires j <= |hs| && Handles(t, hs)
  {
    var r := Delivered(t, hs, j, archive, disk, p0);
    p0 <= |d0| && nodes == r.0 && data == Splice(d0, p0, r.1) && pos == p0 + |r.1|
  }

  /** One turn of the writeFileData loop: the j-th folder's payloads. */
  method PayloadNext(tree: Tree, hs: seq<nat>, j: nat, source: Stream, target: Stream, disk: Disk,
                     ghost t: seq<Folder>, ghost d0: seq<Byte>, ghost p0: nat, ghost archive: seq<Byte>)
    requires j < |hs| && Shaped(t) && Handles(t, hs) && source != target && p0 <= |d0| && source.data == archive
    requires PayloadsDone(t, hs, j, archive, disk, d0, p0, tree.nodes, target.data, target.pos)
    modifies tree, source`pos, target`data, target`pos
    ensures PayloadsDone(t, hs, j + 1, archive, disk, d0, p0, tree.nodes, target.data, target.pos)
  {
    DeliveredShaped(t, hs, j, archive, disk, p0);
    PayloadStep(t, hs, j, archive, disk, d0, p0, target.pos);
    var _ := tree.WriteFileData(hs[j], source, target, disk);
  }

  /** What one turn of the writeFileData loop adds, for a target stream
      at q just past the payloads written so far. */
  lemma PayloadStep(t: seq<Folder>, hs: seq<nat>, j: nat, archive: seq<Byte>, disk: Disk,
                    d0: seq<Byte>, p: nat, q: nat)
    requires j < |hs| && Handles(t, hs) && p <= |d0|
    requires q == p + |Delivered(t, hs, j, archive, disk, p).1|
    ensures var before := Delivered(t, hs, j, archive, disk, p);
      var u, h := before.0, hs[j];
      var run := FileRun(u[h].files, archive, disk, q);
      && Delivered(t, hs, j + 1, archive, disk, p) == (u[h := WithFiles(u[h], run.0)], before.1 + run.1)
      && Splice(Splice(d0, p, before.1), q, run.1) == Splice(d0, p, before.1 + run.1)
      && q + |run.1| == p + |before.1 + run.1|
  {
    var before := Delivered(t, hs, j, archive, disk, p);
    DeliveredNext(t, hs, j, archive, disk, p, q);
    SpliceNext(d0, p, before.1, q, FileRun(before.0[hs[j]].files, archive, disk, q).1);
  }

  /** What one turn of the writeFileData loop adds: the run of the next
      folder's files, written just past the payloads so far. */
  lemma DeliveredNext(t: seq<Folder>, hs: seq<nat>, j: nat, archive: seq<Byte>, disk: Disk, p: nat, q: nat)
    requires j < |hs| && Handles(t, hs) && q == p + |Delivered(t, hs, j, archive, disk, p).1|
    ensures var before := Delivered(t, hs, j, archive, disk, p);
      var u, h := before.0, hs[j];
      var run := FileRun(u[h].files, archive, disk, q);
      Delivered(t, hs, j + 1, archive, disk, p) == (u[h := WithFiles(u[h], run.0)], before.1 + run.1)
  {
  }

  /** The loop of write that lists the folders' paths and their files'
      names and sums their lengths in 32-bit unsigned ints. */
  method GatherNames(tree: Tree, hs: seq<nat>)
    returns (folderNames: seq<seq<Byte>>, fileNames: seq<seq<Byte>>,
             folderNamesLength: U32, fileNamesLength: U32)
    requires tree.Valid() && Handles(tree.nodes, hs)
    ensures folderNames == Paths(tree.nodes, hs) && fileNames == ListedNames(tree.nodes, hs, |hs|)
    ensures folderNamesLength == LengthSum(folderNames) % Word
    ensures fileNamesLength == LengthSum(fileNames) % Word
  {
    ghost var t := tree.nodes;
    folderNames, fileNames := [], [];
    folderNamesLength, fileNamesLength := 0, 0;
    var j := 0;
    while j < |hs|
      invariant j <= |hs|
      invariant folderNames == Paths(t, hs[..j]) && fileNames == ListedNames(t, hs, j)
      invariant folderNamesLength == LengthSum(folderNames) % Word
      invariant fileNamesLength == LengthSum(fileNames) % Word
    {
      var fullPath := FullPath(tree.nodes, hs[j]);
      assert hs[..j + 1][..j] == hs[..j];
      LengthSumNext(folderNames, fullPath);
      folderNames := folderNames + [fullPath];
      folderNamesLength := (folderNamesLength + |fullPath|) % Word;
      fileNames, fileNamesLength := AppendNames(tree.nodes[hs[j]].files, fileNames, fileNamesLength);
      j := j + 1;
    }
    assert hs[..j] == hs;
  }

  /** The inner loop of that: each file's name, its length added. */
  method AppendNames(files: seq<File>, fileNames: seq<seq<Byte>>, fileNamesLength: U32)
    returns (names': seq<seq<Byte>>, length': U32)
    requires fileNamesLength == LengthSum(fileNames) % Word
    ensures names' == fileNames + FileNames(files) && length' == LengthSum(names') % Word
  {
    ghost var names := FileNames(files);
    names', length' := fileNames, fileNamesLength;
    var m := 0;
    while m < |files|
      invariant m <= |files|
      invariant names' == fileNames + names[..m] && length' == LengthSum(names') % Word
    {
      TakeNext(names, m);
      LengthSumNext(names', files[m].name);
      names' := names' + [files[m].name];
      length' := (length' + |files[m].name|) % Word;
      m := m + 1;
    }
    assert names[..m] == names;
  }

  /** One more name adds its length to the sum, and modulo 2^32 the sum
      may be reduced at every step. */
  lemma LengthSumNext(list: seq<seq<Byte>>, name: seq<Byte>)
    ensures LengthSum(list + [name]) == LengthSum(list) + |name|
    ensures (LengthSum(list) % Word + |name|) % Word == LengthSum(list + [name]) % Word
  {
    assert (list + [name])[..|list|] == list;
  }

  /** The loop of write over the file names, each as a Z-string. */
  method WriteNames(names: seq<seq<Byte>>, s: Stream)
    requires s.pos <= |s.data|
    modifies s`data, s`pos
    ensures s.data == Splice(old(s.data), old(s.pos), ZStrings(names))
    ensures s.pos == old(s.pos) + |ZStrings(names)|
  {
    ghost var d0, p0 := s.data, s.pos;
    var j := 0;
    while j < |names|
      invariant j <= |names|
      invariant s.data == Splice(d0, p0, ZStrings(names[..j])) && s.pos == p0 + |ZStrings(names[..j])|
    {
      assert names[..j + 1][..j] == names[..j];
      SpliceAppend(d0, p0, ZStrings(names[..j]), EncodeZString(names[j]));
      s.WriteZString(names[j]);
      j := j + 1;
    }
    assert names[..j] == names;
  }

  /** The first pass of write, after the header at the end of the stream. */
  method WriteFirstPass(tree: Tree, hs: seq<nat>, names: seq<seq<Byte>>, source: Stream, target: Stream,
                        disk: Disk, fileNamesLength: U32, ghost u: seq<Folder>, ghost records: seq<Byte>,
                        ghost blocks: seq<Byte>, ghost rest: seq<Byte>)
    requires tree.Valid() && Handles(tree.nodes, hs) && source != target && target.pos == |target.data|
    requires var run := PayloadPass(tree.nodes, hs, names, source.data, disk, fileNamesLength, target.pos);
      && u == run.0 && rest == ZStrings(names) + run.1
    requires records == FolderRecords(tree.nodes, hs, |hs|) && blocks == Blocks(tree.nodes, hs, |hs|)
    modifies tree, source`pos, target`data, target`pos
    ensures tree.Valid() && tree.nodes == u && target.data == old(target.data) + records + blocks + rest
  {
    ghost var t, d0, p0, archive := tree.nodes, target.data, target.pos, source.data;
    ghost var start := p0 + FolderRecordSize * |hs|;
    ghost var zs := ZStrings(names);
    ghost var mid := start + |blocks|;
    ghost var q := mid + |zs|;
    ghost var stamped := Stamped(t, hs, |hs|, start, fileNamesLength);
    ghost var run := Delivered(stamped, hs, |hs|, archive, disk, q);
    PayloadPassIs(t, hs, names, archive, disk, fileNamesLength, p0, start, q);
    Appended(d0, records, blocks, zs, run.1, p0, start, mid, q);
    WriteFolderRecords(tree, hs, target);
    assert target.data == d0 + records && target.pos == start;
    WriteBlocks(tree, hs, target, fileNamesLength);
    assert target.data == d0 + records + blocks && target.pos == mid;
    assert tree.nodes == stamped;
    WriteNames(names, target);
    assert target.data == d0 + records + blocks + zs && target.pos == q;
    WritePayloads(tree, hs, source, target, disk, stamped, q, archive);
    assert tree.nodes == run.0;
    assert target.data == d0 + records + blocks + (zs + run.1);
  }

  /** PayloadPass spelled out, with the start of the blocks and of the
      payloads given. */
  lemma PayloadPassIs(t: seq<Folder>, hs: seq<nat>, names: seq<seq<Byte>>, archive: seq<Byte>, disk: Disk,
                    fileNamesLength: U32, p: nat, start: nat, q: nat)
    requires Rooted(t) && Handles(t, hs)
    requires start == p + FolderRecordSize * |hs| && q == start + |Blocks(t, hs, |hs|)| + |ZStrings(names)|
    ensures PayloadPass(t, hs, names, archive, disk, fileNamesLength, p)
      == Delivered(Stamped(t, hs, |hs|, start, fileNamesLength), hs, |hs|, archive, disk, q)
  {
    var stamped := Stamped(t, hs, |hs|, start, fileNamesLength);
    assert start + |Blocks(t, hs, |hs|)| + |ZStrings(names)| == q;
    assert PayloadPass(t, hs, names, archive, disk, fileNamesLength, p) == Delivered(stamped, hs, |hs|, archive, disk, q);
  }

  /** Four writes at the end of a stream append four pieces; p1 to p4 are
      where each starts. */
  lemma Appended(d: seq<Byte>, a: seq<Byte>, b: seq<Byte>, c: seq<Byte>, e: seq<Byte>,
                 p1: nat, p2: nat, p3: nat, p4: nat)
    requires p1 == |d| && p2 == p1 + |a| && p3 == p2 + |b| && p4 == p3 + |c|
    ensures Splice(d, p1, a) == d + a && Splice(d + a, p2, b) == d + a + b
    ensures Splice(d + a + b, p3, c) == d + a + b + c
    ensures Splice(d + a + b + c, p4, e) == d + a + b + (c + e)
  {
    SpliceEnd(d, a);
    SpliceEnd(d + a, b);
    SpliceEnd(d + a + b, c);
    SpliceEnd(d + a + b + c, e);
    assert d + a + b + c + e == d + a + b + (c + e);
  }

  /** Concatenation regrouped. */
  lemma Regrouped(d: seq<Byte>, a: seq<Byte>, b: seq<Byte>, c: seq<Byte>)
    ensures d + a + b + c == d + (a + b + c)
    ensures d + a + b + c == d + a + (b + c)
  {
  }

  /** The second pass of write, from the end of the header: the folder
      records and the data blocks again, over those of the first pass,
      which had the same lengths; the arena already holds the offsets this
      pass records, so it is left as it is. */
  method WriteSecondPass(tree: Tree, hs: seq<nat>, target: Stream, fileNamesLength: U32, ghost u: seq<Folder>,
                         ghost q: nat, ghost pre: seq<Byte>, ghost records: seq<Byte>, ghost blocks: seq<Byte>,
                         ghost rest: seq<Byte>)
    requires tree.Valid() && tree.nodes == u && Handles(u, hs)
    requires Stamped(u, hs, |hs|, q, fileNamesLength) == u
    requires target.pos == |pre| && q == |pre| + FolderRecordSize * |hs|
    requires |records| == FolderRecordSize * |hs| && |blocks| == |Blocks(u, hs, |hs|)|
    requires target.data == pre + records + blocks + rest
    modifies tree, target`data, target`pos
    ensures tree.Valid() && tree.nodes == u
    ensures target.data == pre + FolderRecords(u, hs, |hs|) + Blocks(u, hs, |hs|) + rest
  {
    ghost var r1, b1 := FolderRecords(u, hs, |hs|), Blocks(u, hs, |hs|);
    Rewritten(pre, records, blocks, rest, r1, b1, target.pos, q);
    WriteFolderRecords(tree, hs, target);
    assert target.pos == q && target.data == pre + r1 + blocks + rest;
    WriteBlocks(tree, hs, target, fileNamesLength);
  }

  /** The two writes of the second pass, each over a stretch of its own
      length. */
  lemma Rewritten(pre: seq<Byte>, records: seq<Byte>, blocks: seq<Byte>, rest: seq<Byte>,
                  records': seq<Byte>, blocks': seq<Byte>, p: nat, q: nat)
    requires |records'| == |records| && |blocks'| == |blocks| && p == |pre| && q == p + |records|
    ensures Splice(pre + records + blocks + rest, p, records') == pre + records' + blocks + rest
    ensures Splice(pre + records' + blocks + rest, q, blocks') == pre + records' + blocks' + rest
  {
    assert pre + records + blocks + rest == pre + records + (blocks + rest);
    Overwrite(pre, records, blocks + rest, records');
    assert pre + records' + (blocks + rest) == pre + records' + blocks + rest;
    Overwrite(pre + records', blocks, rest, blocks');
  }

  /** What the first pass leaves ready for the second, which starts at
      p: the arena u already holds the offsets the second pass records, the
      blocks keep their lengths, and both passes together make Passes. */
  lemma SecondPassReady(t: seq<Folder>, hs: seq<nat>, names: seq<seq<Byte>>, archive: seq<Byte>, disk: Disk,
                        fileNamesLength: U32, p: nat, d: seq<Byte>)
    returns (u: seq<Folder>, q: nat, records: seq<Byte>, blocks: seq<Byte>, rest: seq<Byte>)
    requires Rooted(t) && Handles(t, hs)
    ensures var run := PayloadPass(t, hs, names, archive, disk, fileNamesLength, p);
      && u == run.0 && rest == ZStrings(names) + run.1
    ensures records == FolderRecords(t, hs, |hs|) && blocks == Blocks(t, hs, |hs|)
    ensures q == p + FolderRecordSize * |hs| && Rooted(u) && Handles(u, hs) && Stamped(u, hs, |hs|, q, fileNamesLength) == u
    ensures |records| == FolderRecordSize * |hs| && |blocks| == |Blocks(u, hs, |hs|)|
    ensures var r := Passes(t, hs, names, archive, disk, fileNamesLength, p);
      r.0 == u && d + r.1 == d + FolderRecords(u, hs, |hs|) + Blocks(u, hs, |hs|) + rest
  {
    var run := PayloadPass(t, hs, names, archive, disk, fileNamesLength, p);
    u, q, records, blocks, rest := run.0, p + FolderRecordSize * |hs|, FolderRecords(t, hs, |hs|), Blocks(t, hs, |hs|), ZStrings(names) + run.1;
    PayloadPassAlike(t, hs, names, archive, disk, fileNamesLength, p);
    assert OffsetsStamped(t, u, hs, q, fileNamesLength);
    Restamp(t, u, hs, q, fileNamesLength);
    AlikeBlocks(t, u, hs, |hs|);
    Regrouped(d, FolderRecords(u, hs, |hs|), Blocks(u, hs, |hs|), rest);
  }

  /** Both passes of write after the header, which ends at 0x24: the
      first pass, the seek back to 0x24, and the second pass. */
  method WritePasses(tree: Tree, hs: seq<nat>, names: seq<seq<Byte>>, source: Stream, target: Stream,
                     disk: Disk, fileNamesLength: U32)
    requires tree.Valid() && Handles(tree.nodes, hs) && source != target
    requires target.pos == |target.data| == 0x24
    modifies tree, source`pos, target`data, target`pos
    ensures tree.Valid()
    ensures var r := Passes(old(tree.nodes), hs, names, source.data, disk, fileNamesLength, 0x24);
      tree.nodes == r.0 && target.data == old(target.data) + r.1
  {
    ghost var u, q, records, blocks, rest :=
      SecondPassReady(tree.nodes, hs, names, source.data, disk, fileNamesLength, 0x24, target.data);
    ghost var pre, archive := target.data, source.data;
    WriteFirstPass(tree, hs, names, source, target, disk, fileNamesLength, u, records, blocks, rest);
    target.Seek(0x24);
    assert tree.Valid() && tree.nodes == u && target.pos == |pre| && source.data == archive;
    WriteSecondPass(tree, hs, target, fileNamesLength, u, q, pre, records, blocks, rest);
  }

  // ---------------------------------------------------------------------
  // Reading back what the passes wrote

  /** The k-th folder record lies at 16 k among the records. */
  lemma {:induction false} RecordAt(t: seq<Folder>, hs: seq<nat>, n: nat, k: nat)
    requires Handles(t, hs) && k < n <= |hs|
    ensures FolderRecords(t, hs, n)[FolderRecordSize * k..FolderRecordSize * k + FolderRecordSize] == FolderRecord(t[hs[k]])
    decreases n
  {
    var a, b := FolderRecords(t, hs, n - 1), FolderRecord(t[hs[n - 1]]);
    assert FolderRecords(t, hs, n) == a + b;
    if k < n - 1 {
      RecordAt(t, hs, n - 1, k);
      assert (a + b)[FolderRecordSize * k..FolderRecordSize * k + FolderRecordSize]
          == a[FolderRecordSize * k..FolderRecordSize * k + FolderRecordSize];
    } else {
      assert (a + b)[|a|..] == b;
    }
  }

  /** A part w of the middle part y of d == x + y + z, at a in y, lies
      at i in d. */
  lemma Within(d: seq<Byte>, x: seq<Byte>, y: seq<Byte>, z: seq<Byte>, i: nat, a: nat, w: seq<Byte>)
    requires d == x + y + z && i == |x| + a && a + |w| <= |y| && y[a..a + |w|] == w
    ensures i + |w| <= |d| && d[i..i + |w|] == w
  {
    assert d[|x|..|x| + |y|] == y;
  }

  /** In the records and blocks of the folders hs of u written after
      pre, the k-th record lies at p0, 16 k past pre. */
  lemma RecordSlice(u: seq<Folder>, hs: seq<nat>, d: seq<Byte>, pre: seq<Byte>, tail: seq<Byte>, k: nat, p0: nat)
    requires Handles(u, hs) && k < |hs|
    requires d == pre + FolderRecords(u, hs, |hs|) + tail
    requires p0 == |pre| + FolderRecordSize * k
    ensures p0 + FolderRecordSize <= |d| && d[p0..p0 + FolderRecordSize] == FolderRecord(u[hs[k]])
  {
    RecordAt(u, hs, |hs|, k);
    Within(d, pre, FolderRecords(u, hs, |hs|), tail, p0, FolderRecordSize * k, FolderRecord(u[hs[k]]));
  }

  /** In the data blocks of the folders hs of u, written after front,
      the block of the j-th folder lies at q0, past front and the blocks
      before it. */
  lemma BlockSlice(u: seq<Folder>, hs: seq<nat>, d: seq<Byte>, front: seq<Byte>, rest: seq<Byte>, j: nat, q0: nat,
                   b: seq<Byte>)
    requires Rooted(u) && Handles(u, hs) && j < |hs| && b == DataBlock(FullPath(u, hs[j]), u[hs[j]].files)
    requires d == front + Blocks(u, hs, |hs|) + rest && q0 == |front| + |Blocks(u, hs, j)|
    ensures q0 + |b| <= |d| && d[q0..q0 + |b|] == b
  {
    BlockAt(u, hs, j);
    Within(d, front, Blocks(u, hs, |hs|), rest, q0, |Blocks(u, hs, j)|, b);
  }

  /** In an arena stamped from q, a folder of hs records the offset of
      the block of some j-th entry of hs that is that folder. */
  lemma BlockOffset(u: seq<Folder>, hs: seq<nat>, q: nat, fileNamesLength: U32, k: nat) returns (j: nat, q0: nat)
    requires Rooted(u) && Handles(u, hs) && k < |hs| && Stamped(u, hs, |hs|, q, fileNamesLength) == u
    ensures j < |hs| && hs[j] == hs[k] && q0 == q + |Blocks(u, hs, j)|
    ensures u[hs[k]].offsetWrite == Offset(q0, fileNamesLength)
  {
    j := StampPoints(u, hs, |hs|, q, fileNamesLength, k);
    BlocksLengthIs(u, hs, j);
    q0 := q + |Blocks(u, hs, j)|;
  }

  /** The k-th folder record of a stamped arena u, written at p0 after
      pre and followed by the data blocks, reads back as that folder. */
  lemma LaidOutFolderReads(u: seq<Folder>, hs: seq<nat>, d: seq<Byte>, pre: seq<Byte>, rest: seq<Byte>, q: nat,
                           fileNamesLength: U32, k: nat, p0: nat)
    requires Rooted(u) && Handles(u, hs) && k < |hs|
    requires q == |pre| + FolderRecordSize * |hs| && Stamped(u, hs, |hs|, q, fileNamesLength) == u
    requires d == pre + FolderRecords(u, hs, |hs|) + Blocks(u, hs, |hs|) + rest && |d| < Word
    requires p0 == |pre| + FolderRecordSize * k
    requires |u[hs[k]].files| < Word && SizesFit(u[hs[k]].files)
    requires Nul !in FullPath(u, hs[k]) && |FullPath(u, hs[k])| <= 254
    ensures FolderReadsBack(d, p0, fileNamesLength, u[hs[k]], FullPath(u, hs[k]))
  {
    Regrouped(pre, FolderRecords(u, hs, |hs|), Blocks(u, hs, |hs|), rest);
    RecordSlice(u, hs, d, pre, Blocks(u, hs, |hs|) + rest, k, p0);
    var j, q0 := BlockOffset(u, hs, q, fileNamesLength, k);
    BlockSlice(u, hs, d, pre + FolderRecords(u, hs, |hs|), rest, j, q0, DataBlock(FullPath(u, hs[k]), u[hs[k]].files));
    StoredFolderRoundTrip(u[hs[k]], FullPath(u, hs[k]), d, p0, q0, fileNamesLength);
  }

  /** What the passes wrote after pre, read back from the k-th folder
      record as readFolder reads it: the folder's hash, its path as name,
      the offset recorded for it, and every file record, provided the
      image stays below 4 GiB, the folder has fewer than 2^32 files, none
      with a size using the toggle bit, and its path fits a bstring and
      holds no NUL. */
  lemma PassesFolderReads(t: seq<Folder>, hs: seq<nat>, names: seq<seq<Byte>>, archive: seq<Byte>, disk: Disk,
                          fileNamesLength: U32, pre: seq<Byte>, k: nat)
    requires Rooted(t) && Handles(t, hs) && k < |hs|
    requires var (u, d) := Passes(t, hs, names, archive, disk, fileNamesLength, |pre|);
      && |pre| + |d| < Word && |u[hs[k]].files| < Word && SizesFit(u[hs[k]].files)
    requires Nul !in FullPath(t, hs[k]) && |FullPath(t, hs[k])| <= 254
    ensures var (u, d) := Passes(t, hs, names, archive, disk, fileNamesLength, |pre|);
      FolderReadsBack(pre + d, |pre| + FolderRecordSize * k, fileNamesLength, u[hs[k]], FullPath(t, hs[k]))
  {
    var u, q, records, blocks, rest := SecondPassReady(t, hs, names, archive, disk, fileNamesLength, |pre|, pre);
    PayloadPassAlike(t, hs, names, archive, disk, fileNamesLength, |pre|);
    AlikePath(t, u, hs[k]);
    var d := pre + Passes(t, hs, names, archive, disk, fileNamesLength, |pre|).1;
    LaidOutFolderReads(u, hs, d, pre, rest, q, fileNamesLength, k, |pre| + FolderRecordSize * k);
  }

  // ---------------------------------------------------------------------
  // The names write lists and the files the tree holds

  /** ListedNames looks only at the first n handles. */
  lemma {:induction false} ListedNamesSame(t: seq<Folder>, hs: seq<nat>, gs: seq<nat>, n: nat)
    requires Handles(t, hs) && Handles(t, gs) && n <= |hs| && n <= |gs| && hs[..n] == gs[..n]
    ensures ListedNames(t, hs, n) == ListedNames(t, gs, n)
  {
    if n > 0 {
      assert hs[n - 1] == hs[..n][n - 1] == gs[..n][n - 1] == gs[n - 1];
      assert hs[..n - 1] == hs[..n][..n - 1] == gs[..n][..n - 1] == gs[..n - 1];
      ListedNamesSame(t, hs, gs, n - 1);
    }
  }

  /** The names listed for a + b are those for a, then those for b. */
  lemma {:induction false} ListedNamesAppend(t: seq<Folder>, a: seq<nat>, b: seq<nat>)
    requires Handles(t, a) && Handles(t, b)
    ensures Handles(t, a + b)
    ensures ListedNames(t, a + b, |a + b|) == ListedNames(t, a, |a|) + ListedNames(t, b, |b|)
    decreases |b|
  {
    assert Handles(t, a + b) by {
      forall k | 0 <= k < |a + b|
        ensures (a + b)[k] < |t|
      {
        if k >= |a| {
          assert (a + b)[k] == b[k - |a|];
        }
      }
    }
    if b != [] {
      var b' := b[..|b| - 1];
      ListedNamesAppend(t, a, b');
      assert (a + b)[..|a + b'|] == (a + b')[..|a + b'|];
      ListedNamesSame(t, a + b, a + b', |a + b'|);
      assert b[..|b'|] == b'[..|b'|];
      ListedNamesSame(t, b, b', |b'|);
      assert (a + b)[|a + b| - 1] == b[|b| - 1];
      var last := FileNames(t[b[|b| - 1]].files);
      assert ListedNames(t, a + b, |a + b|) == ListedNames(t, a + b, |a + b'|) + last;
      assert ListedNames(t, b, |b|) == ListedNames(t, b', |b'|) + last;
      assert (ListedNames(t, a, |a|) + ListedNames(t, b', |b'|)) + last
        == ListedNames(t, a, |a|) + (ListedNames(t, b', |b'|) + last);
    } else {
      assert a + b == a;
    }
  }

  /** The names collectFileNames gives for folder i are its own files'
      names, then the names write lists for the folders collectFolders
      gives below i. */
  lemma {:induction false} CollectedNames(t: seq<Folder>, i: nat)
    requires Linked(t) && i < |t|
    ensures Handles(t, FoldersBelow(t, i))
    ensures FileNames(FilesFrom(t, i))
      == FileNames(t[i].files) + ListedNames(t, FoldersBelow(t, i), |FoldersBelow(t, i)|)
    decreases |t| - i, 1
  {
    SubFoldersAfter(t, i);
    CollectedNamesOf(t, i, t[i].subFolders);
    FileNamesAppend(t[i].files, FilesOf(t, i, t[i].subFolders));
  }

  /** The folder c itself, when collectFolders lists it: when it holds files. */
  function Own(t: seq<Folder>, c: nat): seq<nat>
    requires c < |t|
  {
    if |t[c].files| != 0 then [c] else []
  }

  lemma ListedOwn(t: seq<Folder>, c: nat)
    requires c < |t|
    ensures Handles(t, Own(t, c))
    ensures ListedNames(t, Own(t, c), |Own(t, c)|) == FileNames(t[c].files)
  {
    if |t[c].files| == 0 {
      assert |FileNames(t[c].files)| == 0;
    }
  }

  lemma {:induction false} CollectedNamesOf(t: seq<Folder>, i: nat, cs: seq<nat>)
    requires Linked(t) && i < |t| && After(t, i, cs)
    ensures Handles(t, FoldersOf(t, i, cs))
    ensures FileNames(FilesOf(t, i, cs)) == ListedNames(t, FoldersOf(t, i, cs), |FoldersOf(t, i, cs)|)
    decreases |t| - i, 0, |cs|
  {
    if cs != [] {
      var c, cs' := cs[|cs| - 1], cs[..|cs| - 1];
      var x := Own(t, c);
      var a, b := FoldersOf(t, i, cs'), FoldersBelow(t, c);
      assert FoldersOf(t, i, cs) == a + x + b;
      CollectedNamesOf(t, i, cs');
      CollectedNames(t, c);
      var la, lx, lb := ListedNames(t, a, |a|), ListedNames(t, x, |x|), ListedNames(t, b, |b|);
      ListedOwn(t, c);
      assert ListedNames(t, a + x + b, |a + x + b|) == la + lx + lb by {
        ListedNamesAppend(t, a, x);
        ListedNamesAppend(t, a + x, b);
      }
      assert FileNames(FilesOf(t, i, cs)) == la + lx + lb by {
        assert FilesOf(t, i, cs) == FilesOf(t, i, cs') + FilesFrom(t, c);
        FileNamesAppend(FilesOf(t, i, cs'), FilesFrom(t, c));
        assert la + (lx + lb) == (la + lx) + lb;
      }
    }
  }

}
