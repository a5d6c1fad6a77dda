/** File entries of an archive: the 16-byte file record whose size field
    carries the compression toggle in bit 30, the entry for a loose file,
    copying a file's payload into a new archive and resolving its name. */
module BsaFile {
  import opened BsaTypes
  import opened Bits
  import opened FileHash

  /** The copy buffer size, CHUNK_SIZE. */
  const ChunkSize: nat := 128 * 1024

  /** 1 << 30: the bit of the size field that toggles compression. */
  const ToggleBit: nat := 0x4000_0000

  /** Bytes of a file record: hash, size field and data offset. */
  const RecordSize: nat := 16

  /** The files on disk that loose entries are read from: path to contents. */
  type Disk = map<seq<Byte>, seq<Byte>>

  /** One file entry. Entries read from an archive have an empty
      sourceFile; entries made from loose files name the file on disk.
      folder is the handle of the owning folder, if any. The two ...Write
      fields and fileSize are what a write records about the entry. */
  datatype File = File(
    folder: Option<nat>,
    isNew: bool,
    nameHash: U64,
    name: seq<Byte>,
    fileSize: U32,
    dataOffset: U32,
    toggleCompressed: bool,
    sourceFile: seq<Byte>,
    toggleCompressedWrite: bool,
    dataOffsetWrite: U32)

  // ---------------------------------------------------------------------
  // The size field

  /** Bit 30 of a 32-bit value. */
  predicate HasToggleBit(field: nat)
  {
    (field / ToggleBit) % 2 == 1
  }

  /** size | (1 << 30) when the entry is toggled, size otherwise. */
  function SizeField(size: U32, toggle: bool): (r: U32)
    ensures HasToggleBit(r) <==> toggle || HasToggleBit(size)
    ensures r == size || r == size + ToggleBit
  {
    if toggle && !HasToggleBit(size) then size + ToggleBit else size
  }

  /** The decoding of a size field: bit 30 is the toggle, the rest the size
      (the bit is cleared with an exclusive or). */
  function DecodeSize(field: U32): (r: (U32, bool))
    ensures !HasToggleBit(r.0)
    ensures r.1 <==> HasToggleBit(field)
    ensures r.0 == field || r.0 + ToggleBit == field
  {
    if HasToggleBit(field) then (field - ToggleBit, true) else (field, false)
  }

  /** A size without bit 30 and its toggle survive encoding. */
  lemma SizeRoundTrip(size: U32, toggle: bool)
    requires !HasToggleBit(size)
    ensures DecodeSize(SizeField(size, toggle)) == (size, toggle)
  {
  }

  /** Every size field is the encoding of its decoding. */
  lemma SizeFieldOfDecoded(field: U32)
    ensures SizeField(DecodeSize(field).0, DecodeSize(field).1) == field
  {
  }

  /** Sizes below 2^30 never carry the toggle bit. */
  lemma SmallSizeClear(size: U32)
    requires size < ToggleBit
    ensures !HasToggleBit(size)
  {
  }

  /** A size of 2^30 or more with bit 30 set comes back toggled and 2^30
      smaller, whatever its own toggle was. */
  lemma LargeSizeAbsorbed(size: U32, toggle: bool)
    requires HasToggleBit(size)
    ensures DecodeSize(SizeField(size, toggle)) == (size - ToggleBit, true)
  {
  }

  // ---------------------------------------------------------------------
  // The record

  /** The 16 bytes File::writeHeader emits: name hash, size field, and
      the data offset recorded by the last writeData. */
  function RecordImage(f: File): (r: seq<Byte>)
    ensures |r| == RecordSize
  {
    TypeImage(Hash, f.nameHash)
    + TypeImage(ULong, SizeField(f.fileSize, f.toggleCompressed))
    + TypeImage(ULong, f.dataOffsetWrite)
  }

  /** The fields of the record at p: name hash, size field, data offset. */
  function ParseRecord(d: seq<Byte>, p: nat): (r: Option<(U64, U32, U32)>)
    ensures r.Some? <==> p + RecordSize <= |d|
  {
    if p + RecordSize <= |d| then
      LimitBytes(Hash);
      LimitBytes(ULong);
      FromLittleEndianBound(d[p..p + 8]);
      FromLittleEndianBound(d[p + 8..p + 12]);
      FromLittleEndianBound(d[p + 12..p + 16]);
      Some((FromLittleEndian(d[p..p + 8]), FromLittleEndian(d[p + 8..p + 12]),
            FromLittleEndian(d[p + 12..p + 16])))
    else None
  }

  /** The entry the record constructor builds from the three fields. */
  function Decoded(hash: U64, field: U32, offset: U32, folder: Option<nat>): (f: File)
    ensures f.nameHash == hash && f.dataOffset == offset && f.folder == folder
    ensures f.toggleCompressed <==> HasToggleBit(field)
    ensures !HasToggleBit(f.fileSize)
    ensures SizeField(f.fileSize, f.toggleCompressed) == field
    ensures !f.isNew && f.sourceFile == []
  {
    var (size, toggle) := DecodeSize(field);
    File(folder, false, hash, [], size, offset, toggle, [], false, 0)
  }

  /** The entry read from the record at p, if the stream holds one. */
  function FileAt(d: seq<Byte>, p: nat, folder: Option<nat>): (r: Option<File>)
    ensures r.Some? <==> p + RecordSize <= |d|
  {
    match ParseRecord(d, p)
    case None => None
    case Some((hash, field, offset)) => Some(Decoded(hash, field, offset, folder))
  }

  /** Reading back a written record gives the hash, the size and the toggle,
      and the recorded data offset becomes the entry's data offset, for
      every size below 2^30. */
  lemma RecordRoundTrip(f: File, d: seq<Byte>, p: nat, folder: Option<nat>)
    requires !HasToggleBit(f.fileSize)
    requires p + RecordSize <= |d| && d[p..p + RecordSize] == RecordImage(f)
    ensures FileAt(d, p, folder).Some?
    ensures var g := FileAt(d, p, folder).value;
      g.nameHash == f.nameHash && g.fileSize == f.fileSize
      && g.toggleCompressed == f.toggleCompressed && g.dataOffset == f.dataOffsetWrite
  {
    RecordParses(f, d, p);
    SizeRoundTrip(f.fileSize, f.toggleCompressed);
  }

  /** The three fields of a written record parse back as written. */
  lemma RecordParses(f: File, d: seq<Byte>, p: nat)
    requires p + RecordSize <= |d| && d[p..p + RecordSize] == RecordImage(f)
    ensures ParseRecord(d, p)
      == Some((f.nameHash, SizeField(f.fileSize, f.toggleCompressed), f.dataOffsetWrite))
  {
    var field := SizeField(f.fileSize, f.toggleCompressed);
    FieldsParse(d, p, p + 8, p + 12, p + 16, f.nameHash, field, f.dataOffsetWrite);
    ConvertFits(Hash, f.nameHash);
    ConvertFits(ULong, field);
    ConvertFits(ULong, f.dataOffsetWrite);
  }

  /** Sixteen bytes written as a 64-bit and two 32-bit values parse back
      as those values reduced to their widths; x, y and e are the
      positions after each field. */
  lemma FieldsParse(d: seq<Byte>, p: nat, x: nat, y: nat, e: nat, a: int, b: int, c: int)
    requires x == p + 8 && y == p + 12 && e == p + 16 && e <= |d|
    requires d[p..e] == TypeImage(Hash, a) + TypeImage(ULong, b) + TypeImage(ULong, c)
    ensures ParseRecord(d, p) == Some((Convert(Hash, a), Convert(ULong, b), Convert(ULong, c)))
  {
    SplitSlice(d, p, y, e, TypeImage(Hash, a) + TypeImage(ULong, b), TypeImage(ULong, c));
    SplitSlice(d, p, x, y, TypeImage(Hash, a), TypeImage(ULong, b));
    TypeImageValue(Hash, a);
    TypeImageValue(ULong, b);
    TypeImageValue(ULong, c);
  }

  /** The three fields of a 16-byte record read one after another: a
      64-bit hash and two 32-bit values. */
  method ReadFields(s: Stream) returns (r: Option<(U64, U32, U32)>)
    modifies s`pos
    ensures r == ParseRecord(s.data, old(s.pos))
    ensures r.Some? ==> s.pos == old(s.pos) + RecordSize
  {
    var hash := s.ReadType(Hash);
    if hash.None? {
      return None;
    }
    var second := s.ReadType(ULong);
    if second.None? {
      return None;
    }
    var third := s.ReadType(ULong);
    if third.None? {
      return None;
    }
    r := Some((hash.value, second.value, third.value));
  }

  /** File(file, folder): reads a record and decodes its size field. */
  method ReadRecord(s: Stream, folder: Option<nat>) returns (r: Option<File>)
    modifies s`pos
    ensures r == FileAt(s.data, old(s.pos), folder)
    ensures r.Some? ==> s.pos == old(s.pos) + RecordSize
  {
    var hash := s.ReadType(Hash);
    if hash.None? {
      return None;
    }
    var size := s.ReadType(ULong);
    if size.None? {
      return None;
    }
    var offset := s.ReadType(ULong);
    if offset.None? {
      return None;
    }
    var fileSize: U32 := size.value;
    var toggle := false;
    if HasToggleBit(fileSize) {
      toggle := true;
      fileSize := fileSize - ToggleBit;
    }
    r := Some(File(folder, false, hash.value, [], fileSize, offset.value, toggle, [], false, 0));
  }

  /** File::writeHeader: the record of the entry at the current position. */
  method WriteHeader(f: File, s: Stream)
    requires s.pos <= |s.data|
    modifies s`data, s`pos
    ensures s.data == Splice(old(s.data), old(s.pos), RecordImage(f))
    ensures s.pos == old(s.pos) + RecordSize
  {
    var field := SizeField(f.fileSize, f.toggleCompressed);
    var a, b, c := TypeImage(Hash, f.nameHash), TypeImage(ULong, field),
                   TypeImage(ULong, f.dataOffsetWrite);
    s.WriteType(Hash, f.nameHash);
    s.WriteType(ULong, field);
    SpliceAppend(old(s.data), old(s.pos), a, b);
    s.WriteType(ULong, f.dataOffsetWrite);
    SpliceAppend(old(s.data), old(s.pos), a + b, c);
  }

  /** File(name, sourceFile, folder, toggleCompressed): an entry for a loose
      file, hashed by its name and marked new. */
  function Loose(name: seq<Byte>, sourceFile: seq<Byte>, folder: Option<nat>,
                 toggleCompressed: bool): (f: File)
    ensures f.nameHash == BsaHash(name) && f.name == name && f.isNew
    ensures f.sourceFile == sourceFile && f.folder == folder
    ensures f.toggleCompressed == toggleCompressed == f.toggleCompressedWrite
  {
    HashBound(name);
    File(folder, true, BsaHash(name), name, 0, 0, toggleCompressed, sourceFile,
         toggleCompressed, 0)
  }

  /** ByOffset: entries ordered by their data offset in the source archive. */
  predicate ByOffset(lhs: File, rhs: File)
  {
    lhs.dataOffset < rhs.dataOffset
  }

  /** ByOffset is a strict weak order: irreflexive and transitive, and two
      entries are incomparable exactly when their offsets are equal. */
  lemma ByOffsetOrder(a: File, b: File, c: File)
    ensures !ByOffset(a, a)
    ensures ByOffset(a, b) && ByOffset(b, c) ==> ByOffset(a, c)
    ensures !ByOffset(a, b) && !ByOffset(b, a) <==> a.dataOffset == b.dataOffset
  {
  }

  /** setFileSize changes the size and nothing else. */
  function SetFileSize(f: File, fileSize: U32): (g: File)
    ensures g.fileSize == fileSize
    ensures g.(fileSize := f.fileSize) == f
  {
    f.(fileSize := fileSize)
  }

  // ---------------------------------------------------------------------
  // Copying the payload

  /** Bytes a stream holds from position p on. */
  function Available(d: seq<Byte>, p: nat): nat
  {
    if p <= |d| then |d| - p else 0
  }

  /** The largest multiple of CHUNK_SIZE not above available. */
  function WholeChunks(available: nat): (r: nat)
    ensures r <= available < r + ChunkSize
  {
    if available < ChunkSize then 0 else ChunkSize + WholeChunks(available - ChunkSize)
  }

  /** WholeChunks is exactly the multiple of CHUNK_SIZE within one chunk
      below available. */
  lemma {:induction false} WholeChunksOf(m: nat, available: nat)
    requires m * ChunkSize <= available < m * ChunkSize + ChunkSize
    ensures WholeChunks(available) == m * ChunkSize
  {
    if m > 0 {
      WholeChunksOf(m - 1, available - ChunkSize);
    }
  }

  /** How many of size bytes the chunked copy moves when the source has
      available bytes left: all of them, or otherwise the whole chunks read
      before the first read that comes up short. */
  function CopiedLength(size: nat, available: nat): (r: nat)
    ensures r <= size && r <= available
    ensures r == size <==> size <= available
    ensures r < size ==> available < r + ChunkSize
  {
    if size <= available then size else WholeChunks(available)
  }

  /** The bytes a chunked copy of size bytes starting at p delivers. */
  function Delivered(d: seq<Byte>, p: nat, size: nat): (r: seq<Byte>)
    ensures |r| == CopiedLength(size, Available(d, p))
  {
    if p <= |d| then d[p..p + CopiedLength(size, |d| - p)] else []
  }

  /** Copying n bytes and then k more delivers the concatenation. */
  lemma DeliveredStep(d: seq<Byte>, p: nat, n: nat, k: nat)
    requires p + n + k <= |d|
    ensures Delivered(d, p, n + k) == Delivered(d, p, n) + d[p + n..p + n + k]
  {
    assert d[p..p + n + k] == d[p..p + n] + d[p + n..p + n + k];
  }

  /** Writing the next chunk after the bytes copied so far. */
  lemma CopyStep(d0: seq<Byte>, t0: nat, d: seq<Byte>, p: nat, copied: nat,
                 pos: nat, n: nat, chunk: seq<Byte>, td: seq<Byte>, tpos: nat)
    requires t0 <= |d0| && copied <= Available(d, p) && pos == p + copied && pos + n <= |d|
    requires chunk == d[pos..pos + n] && tpos == t0 + copied <= |td|
    requires td == Splice(d0, t0, Delivered(d, p, copied))
    ensures Splice(td, tpos, chunk) == Splice(d0, t0, Delivered(d, p, copied + n))
  {
    var before := Delivered(d, p, copied);
    assert |before| == copied;
    DeliveredStep(d, p, copied, n);
    assert Delivered(d, p, copied + n) == before + chunk;
    SpliceAppend(d0, t0, before, chunk);
  }

  /** A count of whole chunks stays the whole-chunk part of any length
      less than one chunk beyond it. */
  lemma {:induction false} WholeChunksBelow(c: nat, available: nat)
    requires WholeChunks(c) == c && c <= available < c + ChunkSize
    ensures WholeChunks(available) == c
    decreases c
  {
    if c > 0 {
      WholeChunksBelow(c - ChunkSize, available - ChunkSize);
    }
  }

  /** A copy that stops short delivers the whole chunks it read. */
  lemma DeliveredShort(d: seq<Byte>, p: nat, size: nat, c: nat)
    requires WholeChunks(c) == c && c <= Available(d, p) < c + ChunkSize
    requires Available(d, p) < size
    ensures Delivered(d, p, size) == Delivered(d, p, c)
  {
    WholeChunksBelow(c, Available(d, p));
  }

  /** One iteration of the copy loop: read n bytes, write them out. */
  method CopyChunk(source: Stream, target: Stream, n: nat) returns (ok: bool)
    requires source != target && target.pos <= |target.data|
    modifies source`pos, target`data, target`pos
    ensures ok <==> old(source.pos) + n <= |source.data|
    ensures ok ==> source.pos == old(source.pos) + n && target.pos == old(target.pos) + n
    ensures ok ==>
      target.data == Splice(old(target.data), old(target.pos), source.data[old(source.pos)..old(source.pos) + n])
    ensures !ok ==> target.data == old(target.data) && target.pos == old(target.pos)
  {
    var buffer := source.Read(n);
    if buffer.None? {
      return false;
    }
    target.Write(buffer.value);
    ok := true;
  }

  /** The copy loop of writeData: size bytes in chunks of CHUNK_SIZE from
      source to target, stopping at the first short read. */
  method CopyChunks(source: Stream, target: Stream, size: nat) returns (ok: bool)
    requires source != target && target.pos <= |target.data|
    modifies source`pos, target`data, target`pos
    ensures ok <==> size <= Available(source.data, old(source.pos))
    ensures target.data
      == Splice(old(target.data), old(target.pos), Delivered(source.data, old(source.pos), size))
    ensures target.pos == old(target.pos) + |Delivered(source.data, old(source.pos), size)|
  {
    ghost var p0, t0, d0 := source.pos, target.pos, target.data;
    ghost var d := source.data;
    ghost var copied: nat := 0;
    var sizeLeft: nat := size;
    assert Splice(d0, t0, []) == d0;
    while sizeLeft > 0
      invariant copied + sizeLeft == size && source.data == d
      invariant copied <= Available(d, p0)
      invariant source.pos == p0 + copied
      invariant target.pos == t0 + copied <= |target.data|
      invariant sizeLeft > 0 ==> WholeChunks(copied) == copied
      invariant target.data == Splice(d0, t0, Delivered(d, p0, copied))
      decreases sizeLeft
    {
      var chunk := if sizeLeft < ChunkSize then sizeLeft else ChunkSize;
      ghost var pos, td, tpos := source.pos, target.data, target.pos;
      ok := CopyChunk(source, target, chunk);
      if !ok {
        DeliveredShort(d, p0, size, copied);
        return;
      }
      CopyStep(d0, t0, d, p0, copied, pos, chunk, d[pos..pos + chunk], td, tpos);
      sizeLeft := sizeLeft - chunk;
      copied := copied + chunk;
    }
    ok := true;
  }

  /** The bytes writeData emits for an entry: from the source archive at
      the entry's data offset, or the whole loose file (its length taken
      modulo 2^32), or nothing when the loose file is missing. */
  function Payload(f: File, archive: seq<Byte>, disk: Disk): (r: seq<Byte>)
    ensures |f.sourceFile| == 0 ==> |r| <= f.fileSize
    ensures |f.sourceFile| != 0 && f.sourceFile in disk ==>
      |r| == |disk[f.sourceFile]| % Word && r == disk[f.sourceFile][..|r|]
    ensures |f.sourceFile| != 0 && f.sourceFile !in disk ==> r == []
  {
    if |f.sourceFile| == 0 then Delivered(archive, f.dataOffset, f.fileSize)
    else if f.sourceFile in disk then
      var contents := disk[f.sourceFile];
      contents[..|contents| % Word]
    else []
  }

  /** The entry after writeData at target position pos: the position
      becomes the recorded data offset and, for a loose file found on
      disk, its length (modulo 2^32) the size; nothing else changes. */
  function WrittenEntry(f: File, disk: Disk, pos: nat): (g: File)
    ensures g == f.(dataOffsetWrite := g.dataOffsetWrite, fileSize := g.fileSize)
    ensures g.dataOffsetWrite == pos % Word
    ensures |f.sourceFile| != 0 && f.sourceFile in disk ==>
      g.fileSize == |disk[f.sourceFile]| % Word
    ensures |f.sourceFile| == 0 || f.sourceFile !in disk ==> g.fileSize == f.fileSize
  {
    if |f.sourceFile| != 0 && f.sourceFile in disk then
      f.(dataOffsetWrite := pos % Word, fileSize := |disk[f.sourceFile]| % Word)
    else f.(dataOffsetWrite := pos % Word)
  }

  /** The status writeData returns: a missing loose file is reported, and
      an archive entry is invalid data exactly when its payload comes out
      shorter than its size. */
  function WriteError(f: File, archive: seq<Byte>, disk: Disk): (e: ErrorCode)
    ensures |f.sourceFile| == 0 ==>
      (e == ErrorNone <==> |Payload(f, archive, disk)| == f.fileSize)
      && (e == ErrorNone || e == ErrorInvalidData)
    ensures |f.sourceFile| != 0 ==>
      (e == ErrorNone <==> f.sourceFile in disk)
      && (e == ErrorNone || e == ErrorSourceFileMissing)
  {
    if |f.sourceFile| == 0 then
      if f.fileSize <= Available(archive, f.dataOffset) then ErrorNone else ErrorInvalidData
    else if f.sourceFile in disk then ErrorNone
    else ErrorSourceFileMissing
  }

  /** File::writeData: records the target position as the new data offset,
      then copies the payload. */
  method WriteData(f: File, source: Stream, target: Stream, disk: Disk)
    returns (g: File, result: ErrorCode)
    requires source != target && target.pos <= |target.data|
    modifies source`pos, target`data, target`pos
    ensures g == WrittenEntry(f, disk, old(target.pos))
    ensures result == WriteError(f, source.data, disk)
    ensures target.data == Splice(old(target.data), old(target.pos), Payload(f, source.data, disk))
    ensures target.pos == old(target.pos) + |Payload(f, source.data, disk)|
  {
    g := f.(dataOffsetWrite := target.pos % Word);
    result := ErrorNone;
    if |f.sourceFile| == 0 {
      source.Seek(f.dataOffset);
      var ok := CopyChunks(source, target, f.fileSize);
      if !ok {
        result := ErrorInvalidData;
      }
    } else {
      if f.sourceFile !in disk {
        assert Splice(old(target.data), old(target.pos), []) == target.data;
        return g, ErrorSourceFileMissing;
      }
      var contents := disk[f.sourceFile];
      var sourceFile := new Stream(contents);
      g := g.(fileSize := |contents| % Word);
      var _ := CopyChunks(sourceFile, target, g.fileSize);
      assert Delivered(contents, 0, g.fileSize) == contents[..g.fileSize];
    }
  }

  // ---------------------------------------------------------------------
  // Resolving names

  /** File::readFileName at p, on a stream that is good or not: the entry
      with the string readZString returns as its name, where the stream
      then stands, whether it is still good, and whether an exception
      escapes. A read that hits the end of the stream or the length limit
      throws nothing (the stream of Archive::read throws on badbit only)
      and still assigns what it extracted; only a name whose hash differs,
      when hashes are tested, throws. */
  function ResolvedName(f: File, d: seq<Byte>, p: nat, good: bool, testHashes: bool): (r: (File, nat, bool, bool))
    ensures r.0 == f.(name := r.0.name)
    ensures (r.0.name, r.1, r.2) == GetLine(d, p, good)
    ensures !testHashes ==> !r.3
    ensures testHashes ==> (r.3 <==> BsaHash(r.0.name) != f.nameHash)
  {
    var (name, q, good') := GetLine(d, p, good);
    (f.(name := name), q, good', testHashes && BsaHash(name) != f.nameHash)
  }

  /** A name written after its record is read back: the entry gets its
      name, the position moves past the terminator and the stream stays
      good. */
  lemma ResolveWrittenName(f: File, g: File, d: seq<Byte>, p: nat, x: nat, testHashes: bool)
    requires g == f.(name := g.name)
    requires Nul !in f.name && |f.name| < FilenameMax
    requires x == p + |f.name| + 1 && x <= |d| && d[p..x] == EncodeZString(f.name)
    ensures ParseZString(d, p) == Some((f.name, x))
    ensures var r := ResolvedName(g, d, p, true, testHashes); r.0 == f && r.1 == x && r.2
  {
    ZStringRoundTrip(d, p, f.name);
  }

  /** File::readFileName; the result says whether it threw. */
  method ReadFileName(f: File, s: Stream, testHashes: bool) returns (g: File, threw: bool)
    modifies s`pos, s`good
    ensures (g, s.pos, s.good, threw) == ResolvedName(f, s.data, old(s.pos), old(s.good), testHashes)
  {
    var name := s.ReadZString();
    g := f.(name := name);
    threw := false;
    if testHashes {
      var hash := CalculateBsaHash(name);
      threw := hash != f.nameHash;
    }
  }
}
