/** The archive as a whole: its header, the game it is for, its flags, and
    the reading and writing of a complete archive over the folder tree. */
module BsaArchive {
  import opened BsaTypes
  import opened Bits
  import opened FileHash
  import opened BsaFile
  import opened BsaFolder
  import opened BsaLayout

  /** The games an archive is for. Fallout: New Vegas and Skyrim archives
      have the Fallout 3 layout and share its value. */
  datatype EType = Oblivion | Fallout3

  const FalloutNV: EType := Fallout3
  const Skyrim: EType := Fallout3

  /** The archive flags the library knows. */
  const FlagHasDirNames: nat := 0x1
  const FlagHasFileNames: nat := 0x2
  const FlagDefaultCompressed: nat := 0x4
  const FlagNamePrefixed: nat := 0x100

  /** The size of the header; every written header stores it as its
      offset field. */
  const HeaderSize: nat := 0x24

  /** "BSA\0" */
  const Magic: seq<Byte> := [0x42, 0x53, 0x41, 0x00]

  // ---------------------------------------------------------------------
  // Bits of a flag word

  /** Bit k of x is set: x & (1 << k) != 0. */
  predicate HasBit(x: nat, k: nat)
    decreases k
  {
    if k == 0 then x % 2 == 1 else HasBit(x / 2, k - 1)
  }

  lemma {:induction false} ZeroHasNoBit(k: nat)
    ensures !HasBit(0, k)
    decreases k
  {
    if k > 0 {
      ZeroHasNoBit(k - 1);
    }
  }

  /** 1 << k has bit k and no other. */
  lemma {:induction false} PowerBit(k: nat, m: nat)
    ensures HasBit(Pow2(k), m) <==> m == k
    decreases k
  {
    if k == 0 {
      if m > 0 {
        ZeroHasNoBit(m - 1);
      }
    } else if m > 0 {
      assert Pow2(k) / 2 == Pow2(k - 1);
      PowerBit(k - 1, m - 1);
    }
  }

  /** x | y has exactly the bits of x and those of y. */
  lemma {:induction false} OrBits(x: nat, y: nat, k: nat)
    ensures HasBit(BitOr(x, y), k) <==> HasBit(x, k) || HasBit(y, k)
    decreases k
  {
    if x == 0 {
      ZeroHasNoBit(k);
    } else if y == 0 {
      ZeroHasNoBit(k);
    } else if k > 0 {
      var b := if x % 2 == 1 || y % 2 == 1 then 1 else 0;
      assert BitOr(x, y) == 2 * BitOr(x / 2, y / 2) + b;
      assert BitOr(x, y) / 2 == BitOr(x / 2, y / 2);
      OrBits(x / 2, y / 2, k - 1);
    }
  }

  /** A value below 2^n has no bit from n on. */
  lemma {:induction false} NoHighBits(x: nat, n: nat, k: nat)
    requires x < Pow2(n) && n <= k
    ensures !HasBit(x, k)
    decreases k
  {
    if n == 0 {
      ZeroHasNoBit(k);
    } else {
      NoHighBits(x / 2, n - 1, k - 1);
    }
  }

  lemma {:induction false} Pow2Below(a: nat, b: nat)
    requires a < b
    ensures Pow2(a) < Pow2(b)
    decreases b
  {
    if a < b - 1 {
      Pow2Below(a, b - 1);
    }
  }

  // ---------------------------------------------------------------------
  // Archive flags and compression

  /** defaultCompressed: the archive flag 0x4 is set. */
  function DefaultCompressed(archiveFlags: U32): (r: bool)
    ensures r <==> archiveFlags / 4 % 2 == 1
  {
    assert archiveFlags / 2 / 2 == archiveFlags / 4;
    HasBit(archiveFlags, 2)
  }

  /** namePrefixed: from Fallout 3 on, the archive flag 0x100 says that
      every data block starts with the file's name. */
  function NamePrefixed(archiveType: EType, archiveFlags: U32): (r: bool)
    ensures r <==> archiveType != Oblivion && archiveFlags / 0x100 % 2 == 1
  {
    PrefixBit(archiveFlags);
    archiveType != Oblivion && HasBit(archiveFlags, 8)
  }

  /** Bit 8 of a flag word, as arithmetic on the word. */
  lemma PrefixBit(x: nat)
    ensures HasBit(x, 8) <==> x / 0x100 % 2 == 1
  {
    assert x / 2 / 2 == x / 4;
    assert x / 4 / 2 / 2 == x / 16;
    assert x / 16 / 2 / 2 == x / 64;
    assert x / 64 / 2 / 2 == x / 0x100;
  }

  /** compressed(file): the default compression, inverted when the file
      toggles it. */
  function Compressed(archiveFlags: U32, f: File): (r: bool)
    ensures r <==> DefaultCompressed(archiveFlags) != f.toggleCompressed
  {
    (DefaultCompressed(archiveFlags) && !f.toggleCompressed)
    || (!DefaultCompressed(archiveFlags) && f.toggleCompressed)
  }

  /** createFile: a new loose file, in no folder, whose toggle makes it
      compressed exactly when asked. */
  function CreateFile(archiveFlags: U32, name: seq<Byte>, sourceName: seq<Byte>,
                      compressed: bool): (f: File)
    ensures f.folder.None? && f.isNew && f.name == name && f.sourceFile == sourceName
    ensures f.nameHash == BsaHash(name)
    ensures Compressed(archiveFlags, f) == compressed
  {
    Loose(name, sourceName, None, DefaultCompressed(archiveFlags) != compressed)
  }

  // ---------------------------------------------------------------------
  // Type identifiers

  /** typeFromID: 0x67 is Oblivion, 0x68 Fallout 3; any other value
      throws, which None stands for. */
  function TypeFromId(typeId: nat): (r: Option<EType>)
    ensures r.Some? <==> typeId == 0x67 || typeId == 0x68
  {
    if typeId == 0x67 then Some(Oblivion)
    else if typeId == 0x68 then Some(Fallout3)
    else None
  }

  /** typeToID, the inverse of typeFromID on the two known types. */
  function TypeToId(t: EType): (typeId: U32)
    ensures TypeFromId(typeId) == Some(t)
  {
    match t
    case Oblivion => 0x67
    case Fallout3 => 0x68
  }

  /** An accepted identifier is the identifier of the type it names. */
  lemma TypeIdRoundTrip(typeId: nat)
    requires TypeFromId(typeId).Some?
    ensures TypeToId(TypeFromId(typeId).value) == typeId
  {
  }

  // ---------------------------------------------------------------------
  // The header

  /** Archive::Header: the fields after the magic. */
  datatype Header = Header(
    archiveType: EType,
    offset: U32,
    archiveFlags: U32,
    folderCount: U32,
    fileCount: U32,
    folderNameLength: U32,
    fileNameLength: U32,
    fileFlags: U32)

  /** The eight 32-bit values of a header, in the order they are stored. */
  function HeaderValues(h: Header): (r: seq<nat>)
    ensures |r| == 8 && forall k :: 0 <= k < 8 ==> r[k] < Word
  {
    [TypeToId(h.archiveType), h.offset, h.archiveFlags, h.folderCount, h.fileCount,
     h.folderNameLength, h.fileNameLength, h.fileFlags]
  }

  /** The 32-bit images of vs, one after another. */
  function Words(vs: seq<nat>): (r: seq<Byte>)
    ensures |r| == 4 * |vs|
    decreases |vs|
  {
    if vs == [] then [] else Words(vs[..|vs| - 1]) + TypeImage(ULong, vs[|vs| - 1])
  }

  /** The bytes writeHeader emits: the magic and the eight values. */
  function HeaderImage(h: Header): (r: seq<Byte>)
    ensures |r| == HeaderSize
  {
    Magic + Words(HeaderValues(h))
  }

  /** The k-th of the words written at p reads back as that value modulo
      2^32. */
  lemma {:induction false} WordsAt(d: seq<Byte>, p: nat, vs: seq<nat>, k: nat)
    requires k < |vs| && p + 4 * |vs| <= |d| && d[p..p + 4 * |vs|] == Words(vs)
    ensures ParseType(d, p + 4 * k, ULong) == Some((vs[k] % Word, p + 4 * k + 4))
    decreases |vs|
  {
    var n := |vs| - 1;
    var a, b := Words(vs[..n]), TypeImage(ULong, vs[n]);
    SplitSlice(d, p, p + 4 * n, p + 4 * |vs|, a, b);
    if k < n {
      assert vs[..n][k] == vs[k];
      WordsAt(d, p, vs[..n], k);
    } else {
      ParseTypeImage(d, p + 4 * n, ULong, vs[n]);
    }
  }

  /** What readHeader makes of a stream: the header, a stream too short
      for it, or one of the two data_invalid_exceptions it throws: not a
      BSA file, or an unknown type. */
  datatype HeaderRead = Parsed(header: Header) | Truncated | NotBsa | UnknownType(typeId: U32)

  /** The 32-bit value stored at p. */
  function Field(d: seq<Byte>, p: nat): (r: U32)
    requires p + 4 <= |d|
  {
    ParseType(d, p, ULong).value.0
  }

  /** readHeader on the stream d, read from its start: the magic first,
      then the type, then the seven other fields. */
  function ParseHeader(d: seq<Byte>): (r: HeaderRead)
    ensures r == NotBsa <==> |d| >= 4 && d[..4] != Magic
    ensures r.Parsed? <==>
      |d| >= HeaderSize && d[..4] == Magic && TypeFromId(Field(d, 4)).Some?
    ensures r.Parsed? ==> TypeToId(r.header.archiveType) == Field(d, 4)
  {
    if |d| < 4 then Truncated
    else if d[..4] != Magic then NotBsa
    else if |d| < 8 then Truncated
    else
      match TypeFromId(Field(d, 4))
      case None => UnknownType(Field(d, 4))
      case Some(t) =>
        if |d| < HeaderSize then Truncated
        else Parsed(Header(t, Field(d, 8), Field(d, 12), Field(d, 16), Field(d, 20),
                           Field(d, 24), Field(d, 28), Field(d, 32)))
  }

  /** readHeader on what writeHeader wrote gives back the header. */
  lemma HeaderRoundTrip(h: Header, rest: seq<Byte>)
    ensures ParseHeader(HeaderImage(h) + rest) == Parsed(h)
  {
    var d := HeaderImage(h) + rest;
    var vs := HeaderValues(h);
    assert d[..4] == Magic;
    assert d[4..HeaderSize] == Words(vs);
    WordsAt(d, 4, vs, 0);
    WordsAt(d, 4, vs, 1);
    WordsAt(d, 4, vs, 2);
    WordsAt(d, 4, vs, 3);
    WordsAt(d, 4, vs, 4);
    WordsAt(d, 4, vs, 5);
    WordsAt(d, 4, vs, 6);
    WordsAt(d, 4, vs, 7);
    forall k | 0 <= k < 8
      ensures vs[k] % Word == vs[k]
    {
      SmallMod(vs[k]);
    }

  }

  /** One more of the words. */
  lemma WordsNext(vs: seq<nat>, k: nat)
    requires k < |vs|
    ensures Words(vs[..k + 1]) == Words(vs[..k]) + TypeImage(ULong, vs[k])
  {
    assert vs[..k + 1][..k] == vs[..k];
  }

  /** The header image as the magic and the eight words one by one. */
  lemma HeaderImageParts(h: Header)
    ensures var vs := HeaderValues(h);
      HeaderImage(h) == Magic + TypeImage(ULong, vs[0]) + TypeImage(ULong, vs[1]) + TypeImage(ULong, vs[2])
        + TypeImage(ULong, vs[3]) + TypeImage(ULong, vs[4]) + TypeImage(ULong, vs[5])
        + TypeImage(ULong, vs[6]) + TypeImage(ULong, vs[7])
  {
    var vs := HeaderValues(h);
    assert vs[..0] == [];
    WordsNext(vs, 0);
    WordsNext(vs, 1);
    WordsNext(vs, 2);
    WordsNext(vs, 3);
    WordsNext(vs, 4);
    WordsNext(vs, 5);
    WordsNext(vs, 6);
    WordsNext(vs, 7);
    assert vs[..8] == vs;
  }

  /** writeType<BSAULong>(value) after the bytes written so far from p in
      d. */
  method WriteWord(s: Stream, value: U32, ghost d: seq<Byte>, ghost p: nat, ghost written: seq<Byte>)
    requires p <= |d| && s.data == Splice(d, p, written) && s.pos == p + |written|
    modifies s`data, s`pos
    ensures s.data == Splice(d, p, written + TypeImage(ULong, value))
    ensures s.pos == p + |written + TypeImage(ULong, value)|
  {
    SpliceNext(d, p, written, s.pos, TypeImage(ULong, value));
    s.WriteType(ULong, value);
  }

  /** Archive::readHeader, from the start of the stream. */
  method ReadHeader(s: Stream) returns (r: HeaderRead)
    requires s.pos == 0
    modifies s`pos
    ensures r == ParseHeader(s.data)
    ensures r.Parsed? ==> s.pos == HeaderSize
  {
    var fileId := s.Read(4);
    if fileId.None? {
      return Truncated;
    }
    if fileId.value != Magic {
      return NotBsa;
    }
    var typeId := s.ReadType(ULong);
    if typeId.None? {
      return Truncated;
    }
    var t := TypeFromId(typeId.value);
    if t.None? {
      return UnknownType(typeId.value);
    }
    var offset := s.ReadType(ULong);
    if offset.None? {
      return Truncated;
    }
    var archiveFlags := s.ReadType(ULong);
    if archiveFlags.None? {
      return Truncated;
    }
    var folderCount := s.ReadType(ULong);
    if folderCount.None? {
      return Truncated;
    }
    var fileCount := s.ReadType(ULong);
    if fileCount.None? {
      return Truncated;
    }
    var folderNameLength := s.ReadType(ULong);
    if folderNameLength.None? {
      return Truncated;
    }
    var fileNameLength := s.ReadType(ULong);
    if fileNameLength.None? {
      return Truncated;
    }
    var fileFlags := s.ReadType(ULong);
    if fileFlags.None? {
      return Truncated;
    }
    r := Parsed(Header(t.value, offset.value, archiveFlags.value, folderCount.value, fileCount.value,
                       folderNameLength.value, fileNameLength.value, fileFlags.value));
  }

  // ---------------------------------------------------------------------
  // Name lists

  /** The extensions determineFileFlags looks for; bit k of the file flags
      stands for the k-th. */
  const Extensions: seq<seq<Byte>> := [
    [0x2E, 0x6E, 0x69, 0x66],  // .nif
    [0x2E, 0x64, 0x64, 0x73],  // .dds
    [0x2E, 0x78, 0x6D, 0x6C],  // .xml
    [0x2E, 0x77, 0x61, 0x76],  // .wav
    [0x2E, 0x6D, 0x70, 0x33],  // .mp3
    [0x2E, 0x74, 0x78, 0x74],  // .txt
    [0x2E, 0x73, 0x70, 0x74],  // .spt
    [0x2E, 0x74, 0x65, 0x78],  // .tex
    [0x2E, 0x63, 0x74, 0x6C]]  // .ctl

  /** endsWith: the last |extension| characters of the name equal the
      extension when both are lower-cased, as _stricmp compares them (the
      extensions hold no NUL, so a NUL in the name's tail is a mismatch
      either way). */
  predicate EndsWith(fileName: seq<Byte>, extension: seq<Byte>)
  {
    && |fileName| >= |extension|
    && MapBytes(ToLower, fileName[|fileName| - |extension|..]) == MapBytes(ToLower, extension)
  }

  /** The test ignores case: an upper-cased name ends with the same
      extensions. */
  lemma EndsWithIgnoresCase(fileName: seq<Byte>, extension: seq<Byte>)
    ensures EndsWith(MapBytes(ToUpper, fileName), extension) == EndsWith(fileName, extension)
  {
    var u := MapBytes(ToUpper, fileName);
    if |fileName| >= |extension| {
      var n := |fileName| - |extension|;
      assert MapBytes(ToLower, u[n..]) == MapBytes(ToLower, fileName[n..]);
    }
  }

  /** The extensions are lower case and pairwise different. */
  lemma ExtensionsDistinct(a: nat, b: nat)
    requires a < |Extensions| && b < |Extensions|
    ensures MapBytes(ToLower, Extensions[a]) == Extensions[a]
    ensures Extensions[a] == Extensions[b] ==> a == b
  {
    if Extensions[a] == Extensions[b] {
      assert Extensions[a][1] == Extensions[b][1] && Extensions[a][2] == Extensions[b][2];
    }
  }

  /** A name ends with at most one of the extensions. */
  lemma OneExtension(fileName: seq<Byte>, a: nat, b: nat)
    requires a < |Extensions| && b < |Extensions|
    requires EndsWith(fileName, Extensions[a]) && EndsWith(fileName, Extensions[b])
    ensures a == b
  {
    ExtensionsDistinct(a, b);
    ExtensionsDistinct(b, a);
  }

  /** Some name of the list ends with the k-th extension. */
  predicate Uses(fileList: seq<seq<Byte>>, k: nat)
    requires k < |Extensions|
  {
    exists i :: 0 <= i < |fileList| && EndsWith(fileList[i], Extensions[k])
  }

  lemma UsesNext(fileList: seq<seq<Byte>>, i: nat, k: nat)
    requires i < |fileList| && k < |Extensions|
    ensures Uses(fileList[..i + 1], k) <==> Uses(fileList[..i], k) || EndsWith(fileList[i], Extensions[k])
  {
    if Uses(fileList[..i + 1], k) {
      var j :| 0 <= j < i + 1 && EndsWith(fileList[..i + 1][j], Extensions[k]);
      if j < i {
        assert fileList[..i][j] == fileList[j];
      }
    }
    if Uses(fileList[..i], k) {
      var j :| 0 <= j < i && EndsWith(fileList[..i][j], Extensions[k]);
      assert fileList[..i + 1][j] == fileList[j];
    }
    if EndsWith(fileList[i], Extensions[k]) {
      assert fileList[..i + 1][i] == fileList[i];
    }
  }

  /** determineFileFlags: bit k is set exactly when some name ends with
      the k-th extension, and no bit past the last extension is set. */
  method DetermineFileFlags(fileList: seq<seq<Byte>>) returns (result: U32)
    ensures forall k :: 0 <= k < |Extensions| ==> (HasBit(result, k) <==> Uses(fileList, k))
    ensures forall k :: |Extensions| <= k ==> !HasBit(result, k)
    ensures result == FileFlags(fileList)
  {
    result := 0;
    // hasNIF, hasDDS, ..., hasCTL
    var has := seq(|Extensions|, _ => false);
    forall k | 0 <= k
      ensures !HasBit(0, k)
    {
      ZeroHasNoBit(k);
    }
    var i := 0;
    while i < |fileList|
      invariant i <= |fileList| && Marked(fileList, i, has, result)
    {
      has, result := MarkName(fileList, i, has, result);
      i := i + 1;
    }
    assert fileList[..i] == fileList;
    forall k | |Extensions| <= k
      ensures !HasBit(result, k)
    {
      NoHighBits(result, |Extensions|, k);
    }
    SameBits(result, FileFlags(fileList), |Extensions|);
  }

  /** The flag word of a name list: bit k for each k-th extension some
      name ends with, the bits taken in the order of the extensions. */
  function FileFlags(fileList: seq<seq<Byte>>): (r: U32)
  {
    Pow2Below(|Extensions|, 32);
    Pow2Word();
    FlagsUpTo(fileList, |Extensions|)
  }

  /** The bits of the first n extensions. */
  function FlagsUpTo(fileList: seq<seq<Byte>>, n: nat): (r: nat)
    requires n <= |Extensions|
    ensures r < Pow2(n)
    ensures forall k: nat :: HasBit(r, k) <==> k < n && Uses(fileList, k)
  {
    if n == 0 then
      NoBitsOfZero();
      0
    else
      var x, y := FlagsUpTo(fileList, n - 1), if Uses(fileList, n - 1) then Pow2(n - 1) else 0;
      Pow2Below(n - 1, n);
      BitOrBound(x, y, n);
      OrWithPower(x, y, n - 1, Uses(fileList, n - 1));
      BitOr(x, y)
  }

  /** 0 has no set bit. */
  lemma NoBitsOfZero()
    ensures forall k: nat :: !HasBit(0, k)
  {
    forall k: nat {
      ZeroHasNoBit(k);
    }
  }

  /** Adding bit m, or nothing, to a value below 2^m. */
  lemma OrWithPower(x: nat, y: nat, m: nat, set': bool)
    requires x < Pow2(m) && y == if set' then Pow2(m) else 0
    ensures forall k: nat :: HasBit(BitOr(x, y), k) <==> HasBit(x, k) || (set' && k == m)
  {
    forall k: nat
      ensures HasBit(BitOr(x, y), k) <==> HasBit(x, k) || (set' && k == m)
    {
      OrBits(x, y, k);
      if set' {
        PowerBit(m, k);
      } else {
        ZeroHasNoBit(k);
      }
    }
  }

  /** Values of n bits with the same bits are equal. */
  lemma {:induction false} SameBits(x: nat, y: nat, n: nat)
    requires x < Pow2(n) && y < Pow2(n)
    requires forall k :: 0 <= k < n ==> (HasBit(x, k) <==> HasBit(y, k))
    ensures x == y
    decreases n
  {
    if n > 0 {
      forall k | 0 <= k < n - 1
        ensures HasBit(x / 2, k) <==> HasBit(y / 2, k)
      {
        assert HasBit(x, k + 1) <==> HasBit(x / 2, k);
        assert HasBit(y, k + 1) <==> HasBit(y / 2, k);
      }
      SameBits(x / 2, y / 2, n - 1);
      assert HasBit(x, 0) <==> HasBit(y, 0);
    }
  }

  /** has marks the extensions the first i names end with, and result has
      the bits of the marked extensions. */
  predicate Marked(fileList: seq<seq<Byte>>, i: nat, has: seq<bool>, result: nat)
    requires i <= |fileList|
  {
    && |has| == |Extensions| && result < Pow2(|Extensions|)
    && (forall k :: 0 <= k < |Extensions| ==> (has[k] <==> Uses(fileList[..i], k)))
    && (forall k :: 0 <= k < |Extensions| ==> (HasBit(result, k) <==> has[k]))
  }

  /** The body of determineFileFlags' loop for the name at i. */
  method MarkName(fileList: seq<seq<Byte>>, i: nat, has: seq<bool>, result: U32)
    returns (has': seq<bool>, result': U32)
    requires i < |fileList| && Marked(fileList, i, has, result)
    ensures Marked(fileList, i + 1, has', result')
  {
    var k := FirstNewExtension(fileList[i], has);
    has', result' := has, result;
    if k.Some? {
      has' := has[k.value := true];
      OrPower(result, k.value);
      result' := BitOr(result, Pow2(k.value));
    }
    FlagsStep(fileList, i, has, has', k);
  }

  /** One turn of determineFileFlags' loop: the name at i marks the
      extension it ends with, unless that one is marked already. */
  lemma FlagsStep(fileList: seq<seq<Byte>>, i: nat, before: seq<bool>, after: seq<bool>, k: Option<nat>)
    requires i < |fileList| && |before| == |Extensions|
    requires forall m :: 0 <= m < |Extensions| ==> (before[m] <==> Uses(fileList[..i], m))
    requires k.Some? ==> && k.value < |Extensions| && EndsWith(fileList[i], Extensions[k.value])
                         && after == before[k.value := true]
    requires k.None? ==> && after == before
                         && forall m :: 0 <= m < |Extensions| ==> before[m] || !EndsWith(fileList[i], Extensions[m])
    ensures |after| == |Extensions|
    ensures forall m :: 0 <= m < |Extensions| ==> (after[m] <==> Uses(fileList[..i + 1], m))
  {
    forall m | 0 <= m < |Extensions|
      ensures after[m] <==> Uses(fileList[..i + 1], m)
    {
      UsesNext(fileList, i, m);
      if k.Some? && EndsWith(fileList[i], Extensions[m]) {
        OneExtension(fileList[i], m, k.value);
      }
    }
  }

  /** Setting bit k of a flag word of |Extensions| bits. */
  lemma OrPower(x: nat, k: nat)
    requires x < Pow2(|Extensions|) && k < |Extensions|
    ensures BitOr(x, Pow2(k)) < Pow2(|Extensions|) && BitOr(x, Pow2(k)) < Word
    ensures forall m :: HasBit(BitOr(x, Pow2(k)), m) <==> HasBit(x, m) || m == k
  {
    Pow2Below(k, |Extensions|);
    BitOrBound(x, Pow2(k), |Extensions|);
    Pow2Word();
    Pow2Below(|Extensions|, 32);
    forall m
      ensures HasBit(BitOr(x, Pow2(k)), m) <==> HasBit(x, m) || m == k
    {
      OrBits(x, Pow2(k), m);
      PowerBit(k, m);
    }
  }

  /** The chain of tests in determineFileFlags for one name: the first
      extension not seen yet that the name ends with, if any. */
  method FirstNewExtension(fileName: seq<Byte>, has: seq<bool>) returns (k: Option<nat>)
    requires |has| == |Extensions|
    ensures k.Some? ==> k.value < |Extensions| && !has[k.value] && EndsWith(fileName, Extensions[k.value])
    ensures k.None? ==> forall m :: 0 <= m < |Extensions| ==> has[m] || !EndsWith(fileName, Extensions[m])
  {
    var m := 0;
    while m < |Extensions|
      invariant m <= |Extensions|
      invariant forall j :: 0 <= j < m ==> has[j] || !EndsWith(fileName, Extensions[j])
    {
      if !has[m] && EndsWith(fileName, Extensions[m]) {
        return Some(m);
      }
      m := m + 1;
    }
    return None;
  }

  /** countCharacters: the size, modulo 2^32, of the names written as
      Z-strings. */
  method CountCharacters(list: seq<seq<Byte>>) returns (sum: U32)
    ensures sum == |ZStrings(list)| % Word
  {
    sum := 0;
    var i := 0;
    while i < |list|
      invariant i <= |list| && sum == |ZStrings(list[..i])| % Word
    {
      assert list[..i + 1][..i] == list[..i];
      sum := (sum + |list[i]| + 1) % Word;
      i := i + 1;
    }
    assert list[..i] == list;
  }

  // ---------------------------------------------------------------------
  // Reading an archive

  /** The folders read in turn from the n folder records after the
      header, each from its data block at its offset less fileNamesLength,
      with endPos raised to the end of every block. */
  function StoredFolders(d: seq<Byte>, fileNamesLength: U32, n: nat, endPos: U32)
    : (r: Option<(seq<Folder>, U32)>)
    ensures r.Some? ==> |r.value.0| == n
    decreases n
  {
    if n == 0 then Some(([], endPos))
    else
      match StoredFolders(d, fileNamesLength, n - 1, endPos)
      case None => None
      case Some((fs, e)) =>
        match FolderAt(d, HeaderSize + FolderRecordSize * (n - 1), fileNamesLength)
        case None => None
        case Some((f, end)) => Some((fs + [f], Raised(e, end)))
  }

  /** StoredFolders over one more record. */
  lemma StoredFoldersNext(d: seq<Byte>, fileNamesLength: U32, i: nat, endPos: U32,
                          fs: seq<Folder>, e: U32)
    requires StoredFolders(d, fileNamesLength, i, endPos) == Some((fs, e))
    ensures StoredFolders(d, fileNamesLength, i + 1, endPos) ==
      match FolderAt(d, HeaderSize + FolderRecordSize * i, fileNamesLength)
      case None => None
      case Some((f, end)) => Some((fs + [f], Raised(e, end)))
  {
  }

  /** Once a record fails to read, so does every longer run of records. */
  lemma {:induction false} StoredFoldersFail(d: seq<Byte>, fileNamesLength: U32, i: nat, n: nat, endPos: U32)
    requires i <= n && StoredFolders(d, fileNamesLength, i, endPos).None?
    ensures StoredFolders(d, fileNamesLength, n, endPos).None?
    decreases n - i
  {
    if i < n {
      StoredFoldersFail(d, fileNamesLength, i + 1, n, endPos);
    }
  }

  /** resolveFileNames over the folders fs in turn, from position p on a
      stream that is good or not: the position after, whether the stream
      is still good, and whether every folder's names resolved, which they
      always do when hashes are not tested. */
  function ResolveFolders(fs: seq<Folder>, d: seq<Byte>, p: nat, good: bool, testHashes: bool)
    : (r: (nat, bool, bool))
    ensures p <= r.0 && (r.1 ==> good)
    ensures !testHashes ==> r.2
    decreases |fs|
  {
    if fs == [] then (p, good, true)
    else
      var (q, good', ok) := ResolveFolders(fs[..|fs| - 1], d, p, good, testHashes);
      var run := ResolveRun(fs[|fs| - 1].files, d, q, good', testHashes);
      (run.1, run.2, ok && run.3)
  }

  /** How Archive::read ends: with a status, or with a
      data_invalid_exception it does not catch. */
  datatype ReadResult = Status(code: ErrorCode) | Threw

  /** Archive::read on a file with the contents given, None when it cannot
      be opened. INVALIDHASHES needs testHashes. */
  function ReadOutcome(contents: Option<seq<Byte>>, testHashes: bool): (r: ReadResult)
    ensures !testHashes ==> r != Status(ErrorInvalidHashes)
  {
    match contents
    case None => Status(ErrorFileNotFound)
    case Some(d) =>
      match ParseHeader(d)
      case NotBsa => Threw
      case UnknownType(_) => Threw
      case Truncated => Status(ErrorInvalidData)
      case Parsed(h) => BodyOutcome(d, h, testHashes)
  }

  /** How Archive::read ends after reading the header h: INVALIDDATA when
      a folder record or data block cannot be read, otherwise whether the
      names resolved, which they always do without testHashes. */
  function BodyOutcome(d: seq<Byte>, h: Header, testHashes: bool): (r: ReadResult)
    ensures r.Status? && r.code in {ErrorNone, ErrorInvalidData, ErrorInvalidHashes}
    ensures !testHashes ==> r != Status(ErrorInvalidHashes)
    ensures r == Status(ErrorInvalidData) <==> StoredFolders(d, h.fileNameLength, h.folderCount, h.offset).None?
  {
    match StoredFolders(d, h.fileNameLength, h.folderCount, h.offset)
    case None => Status(ErrorInvalidData)
    case Some((fs, e)) =>
      if ResolveFolders(fs, d, e, true, testHashes).2 then Status(ErrorNone)
      else Status(ErrorInvalidHashes)
  }

  /** Archive::read after the header h: every folder record with its data
      block, placed in the tree, then, from the end of the data blocks,
      the names of the files. */
  method ReadBody(tree: Tree, s: Stream, h: Header, testHashes: bool) returns (r: ReadResult)
    requires tree.Valid() && s.pos == HeaderSize && s.good
    modifies tree, s`pos, s`good
    ensures tree.Valid() && Grown(old(tree.nodes), tree.nodes)
    ensures r == BodyOutcome(s.data, h, testHashes)
  {
    var ok, folders, endPos, fs := ReadFolders(tree, s, h.fileNameLength, h.folderCount, h.offset);
    if !ok {
      return Status(ErrorInvalidData);
    }
    ghost var t0, u := old(tree.nodes), tree.nodes;
    assert tree.Valid() && Grown(t0, u) && Holds(t0, u, folders, fs, 0);
    s.Seek(endPos);
    assert tree.nodes == u;
    var hashesValid := ResolveAll(tree, s, folders, testHashes, t0, fs);
    r := if hashesValid then Status(ErrorNone) else Status(ErrorInvalidHashes);
  }

  /** The folders fs read sit in u at the handles ks, which are new since
      t and increasing; from the index from on, each still holds the files
      it was read with, as its own. */
  ghost predicate Holds(t: seq<Folder>, u: seq<Folder>, ks: seq<nat>, fs: seq<Folder>, from: nat)
  {
    && |ks| == |fs|
    && (forall j :: 0 <= j < |ks| ==> |t| <= ks[j] < |u|)
    && (forall a, b :: 0 <= a < b < |ks| ==> ks[a] < ks[b])
    && (forall j :: from <= j < |ks| ==> u[ks[j]].files == Owned(fs[j].files, ks[j]))
  }

  /** What placing a folder leaves: the arena grown, the folder new, with
      the files it was read with. */
  lemma PlacedNew(u: seq<Folder>, placed: seq<Folder>, f: Folder, k: nat)
    requires Shaped(u) && Placed(u, placed, Root, f, k)
    ensures Grown(u, placed) && |u| <= k < |placed| && placed[k].files == f.files
  {
  }

  /** Placing one more folder read keeps the earlier ones where they are. */
  lemma HoldsPlaced(t: seq<Folder>, u: seq<Folder>, placed: seq<Folder>, ks: seq<nat>,
                    fs: seq<Folder>, f: Folder, k: nat)
    requires Holds(t, u, ks, fs, 0) && Grown(t, u)
    requires Grown(u, placed) && |u| <= k < |placed| && placed[k].files == f.files
    ensures Grown(t, Settled(placed, k))
    ensures Holds(t, Settled(placed, k), ks + [k], fs + [f], 0)
  {
    var v := Settled(placed, k);
    forall j | 0 <= j < |ks|
      ensures v[ks[j]].files == Owned(fs[j].files, ks[j])
    {
      assert v[ks[j]] == placed[ks[j]];
    }
  }

  /** Reading the names into fresh entries: which entries own them makes
      no difference to the position or the outcome. */
  lemma {:induction false} ResolveRunOwned(fs: seq<File>, k: nat, d: seq<Byte>, p: nat, good: bool,
                                           testHashes: bool)
    ensures var (a, b) := (ResolveRun(Owned(fs, k), d, p, good, testHashes), ResolveRun(fs, d, p, good, testHashes));
      a.1 == b.1 && a.2 == b.2 && a.3 == b.3
    decreases |fs|
  {
    if fs != [] {
      assert Owned(fs, k)[0] == fs[0].(folder := Some(k));
      assert Owned(fs, k)[1..] == Owned(fs[1..], k);
      var r := ResolvedName(fs[0], d, p, good, testHashes);
      ResolveRunOwned(fs[1..], k, d, r.1, r.2, testHashes);
    }
  }

  /** The first loop of Archive::read: header.folderCount folders read
      from the records after the header and placed below the root;
      endPos starts at header.offset. */
  method ReadFolders(tree: Tree, s: Stream, fileNamesLength: U32, folderCount: nat, offset: U32)
    returns (ok: bool, folders: seq<nat>, endPos: U32, ghost fs: seq<Folder>)
    requires tree.Valid() && s.pos == HeaderSize
    modifies tree, s`pos
    ensures tree.Valid() && Grown(old(tree.nodes), tree.nodes)
    ensures ok <==> StoredFolders(s.data, fileNamesLength, folderCount, offset).Some?
    ensures ok ==> StoredFolders(s.data, fileNamesLength, folderCount, offset) == Some((fs, endPos))
    ensures ok ==> Holds(old(tree.nodes), tree.nodes, folders, fs, 0)
  {
    ghost var t0 := tree.nodes;
    folders, endPos, fs := [], offset, [];
    var i := 0;
    while i < folderCount
      invariant i <= folderCount && tree.Valid() && Grown(t0, tree.nodes)
      invariant s.pos == HeaderSize + FolderRecordSize * i
      invariant StoredFolders(s.data, fileNamesLength, i, offset) == Some((fs, endPos))
      invariant Holds(t0, tree.nodes, folders, fs, 0)
    {
      var k, newEnd, f := PlaceNext(tree, s, fileNamesLength, i, offset, endPos, t0, folders, fs);
      if k.None? {
        StoredFoldersFail(s.data, fileNamesLength, i + 1, folderCount, offset);
        return false, folders, endPos, fs;
      }
      folders, endPos, fs := folders + [k.value], newEnd, fs + [f];
      i := i + 1;
    }
    ok := true;
  }

  /** One turn of the first loop of Archive::read: the i-th folder record
      read and its folder placed. */
  method PlaceNext(tree: Tree, s: Stream, fileNamesLength: U32, i: nat, offset: U32, endPos: U32,
                   ghost t0: seq<Folder>, ghost folders: seq<nat>, ghost fs: seq<Folder>)
    returns (k: Option<nat>, newEnd: U32, ghost f: Folder)
    requires tree.Valid() && Grown(t0, tree.nodes) && Holds(t0, tree.nodes, folders, fs, 0)
    requires s.pos == HeaderSize + FolderRecordSize * i
    requires StoredFolders(s.data, fileNamesLength, i, offset) == Some((fs, endPos))
    modifies tree, s`pos
    ensures tree.Valid() && Grown(t0, tree.nodes)
    ensures k.None? ==> StoredFolders(s.data, fileNamesLength, i + 1, offset).None?
    ensures k.Some? ==>
      && s.pos == HeaderSize + FolderRecordSize * (i + 1)
      && StoredFolders(s.data, fileNamesLength, i + 1, offset) == Some((fs + [f], newEnd))
      && Holds(t0, tree.nodes, folders + [k.value], fs + [f], 0)
  {
    ghost var u := tree.nodes;
    ghost var placed;
    k, newEnd, placed := tree.AddStoredFolder(s, fileNamesLength, endPos);
    StoredFoldersNext(s.data, fileNamesLength, i, offset, fs, endPos);
    if k.Some? {
      f := FolderAt(s.data, HeaderSize + FolderRecordSize * i, fileNamesLength).value.0;
      PlacedNew(u, placed, f, k.value);
      HoldsPlaced(t0, u, placed, folders, fs, f, k.value);
    } else {
      f := Blank();
    }
  }

  /** The second loop of Archive::read: the names of the files of every
      folder read, in the order the folders were read. */
  method ResolveAll(tree: Tree, s: Stream, folders: seq<nat>, testHashes: bool,
                    ghost t0: seq<Folder>, ghost fs: seq<Folder>) returns (hashesValid: bool)
    requires tree.Valid() && Grown(t0, tree.nodes) && Holds(t0, tree.nodes, folders, fs, 0)
    modifies tree, s`pos, s`good
    ensures tree.Valid() && Grown(t0, tree.nodes)
    ensures (s.pos, s.good, hashesValid) == ResolveFolders(fs, s.data, old(s.pos), old(s.good), testHashes)
  {
    hashesValid := true;
    var j := 0;
    while j < |folders|
      invariant j <= |folders| && tree.Valid() && Grown(t0, tree.nodes)
      invariant Holds(t0, tree.nodes, folders, fs, j)
      invariant (s.pos, s.good, hashesValid)
        == ResolveFolders(fs[..j], s.data, old(s.pos), old(s.good), testHashes)
    {
      hashesValid := ResolveNext(tree, s, folders, j, testHashes, hashesValid, t0, fs, old(s.pos),
                                 old(s.good));
      j := j + 1;
    }
    assert fs[..j] == fs;
  }

  /** One turn of the second loop of Archive::read: the names of the files
      of the j-th folder read. */
  method ResolveNext(tree: Tree, s: Stream, folders: seq<nat>, j: nat, testHashes: bool,
                     hashesValid: bool, ghost t0: seq<Folder>, ghost fs: seq<Folder>, ghost p0: nat,
                     ghost good0: bool)
    returns (valid: bool)
    requires j < |folders| && tree.Valid() && Grown(t0, tree.nodes)
    requires Holds(t0, tree.nodes, folders, fs, j)
    requires (s.pos, s.good, hashesValid) == ResolveFolders(fs[..j], s.data, p0, good0, testHashes)
    modifies tree, s`pos, s`good
    ensures tree.Valid() && Grown(t0, tree.nodes)
    ensures Holds(t0, tree.nodes, folders, fs, j + 1)
    ensures (s.pos, s.good, valid) == ResolveFolders(fs[..j + 1], s.data, p0, good0, testHashes)
  {
    ghost var u, p, good := tree.nodes, s.pos, s.good;
    var k := folders[j];
    ghost var g := WithFiles(u[k], ResolveRun(u[k].files, s.data, p, good, testHashes).0);
    HoldsNext(t0, u, folders, fs, j, g);
    ResolveRunOwned(fs[j].files, k, s.data, p, good, testHashes);
    ResolveFoldersNext(fs, j, s.data, p0, good0, testHashes);
    var resolved := tree.ResolveFileNames(k, s, testHashes);
    valid := hashesValid && resolved;
  }

  /** Giving folder ks[j] new files, the turn of folder j done, keeps what
      Holds says of the folders after it, and the arena grown from t. */
  lemma HoldsNext(t: seq<Folder>, u: seq<Folder>, ks: seq<nat>, fs: seq<Folder>, j: nat, g: Folder)
    requires Grown(t, u) && Holds(t, u, ks, fs, j) && j < |ks|
    ensures Grown(t, u[ks[j] := g]) && Holds(t, u[ks[j] := g], ks, fs, j + 1)
  {
    forall m | j + 1 <= m < |ks|
      ensures u[ks[j] := g][ks[m]] == u[ks[m]]
    {
      assert ks[j] < ks[m];
    }
  }

  /** ResolveFolders over one more folder. */
  lemma ResolveFoldersNext(fs: seq<Folder>, j: nat, d: seq<Byte>, p: nat, good: bool, testHashes: bool)
    requires j < |fs|
    ensures var (q, good', ok) := ResolveFolders(fs[..j], d, p, good, testHashes);
      var run := ResolveRun(fs[j].files, d, q, good', testHashes);
      ResolveFolders(fs[..j + 1], d, p, good, testHashes) == (run.1, run.2, ok && run.3)
  {
    assert fs[..j + 1][..j] == fs[..j];
  }

  // ---------------------------------------------------------------------
  // Writing an archive

  /** The header write stores for the folders hs of t and the names of
      their files: the static header size as offset, the number of
      folders and the count of all files (the root's own included), both
      name totals without terminators, and the extension flags. */
  function WrittenHeader(archiveType: EType, archiveFlags: U32, t: seq<Folder>, hs: seq<nat>): (h: Header)
    requires Shaped(t) && Handles(t, hs)
    ensures h.offset == HeaderSize && h.folderCount == |hs| % Word
    ensures h.fileNameLength == LengthSum(ListedNames(t, hs, |hs|)) % Word
  {
    var names := ListedNames(t, hs, |hs|);
    Header(archiveType, HeaderSize, archiveFlags, |hs| % Word, CountFiles(t, Root),
           LengthSum(Paths(t, hs)) % Word, LengthSum(names) % Word, FileFlags(names))
  }

  /** What Archive::write leaves in the tree t and writes, reading the
      payloads of stored files from archive and those of new files from
      disk: the header, the folder records and data blocks of the second
      pass, the file names, and the payloads of the first. */
  function Written(archiveType: EType, archiveFlags: U32, t: seq<Folder>, archive: seq<Byte>, disk: Disk)
    : (r: (seq<Folder>, seq<Byte>))
    requires Shaped(t)
    ensures |r.0| == |t|
  {
    FolderNamesArePaths(t, Root);
    var hs := FoldersBelow(t, Root);
    var names := ListedNames(t, hs, |hs|);
    var r := Passes(t, hs, names, archive, disk, LengthSum(names) % Word, HeaderSize);
    (r.0, HeaderImage(WrittenHeader(archiveType, archiveFlags, t, hs)) + r.1)
  }

  /** Written taken apart: the folders in the order collectFolders gives,
      the file names, their total length, the header and both passes. */
  lemma WrittenParts(archiveType: EType, archiveFlags: U32, t: seq<Folder>, archive: seq<Byte>, disk: Disk)
    returns (hs: seq<nat>, names: seq<seq<Byte>>, fileNamesLength: U32, header: Header,
             run: (seq<Folder>, seq<Byte>))
    requires Shaped(t)
    ensures hs == [] + FoldersBelow(t, Root) && Handles(t, hs)
    ensures names == ListedNames(t, hs, |hs|) && fileNamesLength == LengthSum(names) % Word
    ensures header == Header(archiveType, HeaderSize, archiveFlags, |Paths(t, hs)| % Word, CountFiles(t, Root),
                             LengthSum(Paths(t, hs)) % Word, fileNamesLength, FileFlags(names))
    ensures header == WrittenHeader(archiveType, archiveFlags, t, hs)
    ensures run == Passes(t, hs, names, archive, disk, fileNamesLength, 0x24)
    ensures Written(archiveType, archiveFlags, t, archive, disk) == (run.0, HeaderImage(header) + run.1)
  {
    FolderNamesArePaths(t, Root);
    hs := FoldersBelow(t, Root);
    assert [] + hs == hs;
    names := ListedNames(t, hs, |hs|);
    fileNamesLength := LengthSum(names) % Word;
    header := WrittenHeader(archiveType, archiveFlags, t, hs);
    run := Passes(t, hs, names, archive, disk, fileNamesLength, 0x24);
  }

  /** What write stores reads back, through readHeader, as the header it
      meant to store. */
  lemma WrittenHeaderReads(archiveType: EType, archiveFlags: U32, t: seq<Folder>, archive: seq<Byte>, disk: Disk)
    requires Shaped(t)
    ensures var hs := FoldersBelow(t, Root);
      && Handles(t, hs)
      && ParseHeader(Written(archiveType, archiveFlags, t, archive, disk).1)
         == Parsed(WrittenHeader(archiveType, archiveFlags, t, hs))
  {
    var hs, names, fileNamesLength, header, run := WrittenParts(archiveType, archiveFlags, t, archive, disk);
    HeaderRoundTrip(header, run.1);
    assert hs == FoldersBelow(t, Root);
  }

  /** ... and the k-th folder record of what write stores reads back,
      through readFolder with the file name length of the header, as the
      k-th folder collectFolders gives: its hash, its path as name, the
      offset recorded for it and its files' records. This holds while the
      archive stays below 4 GiB, the folder has fewer than 2^32 files, none
      with a size using the toggle bit, and its path fits a bstring and
      holds no NUL. */
  lemma WrittenFolderReads(archiveType: EType, archiveFlags: U32, t: seq<Folder>, archive: seq<Byte>, disk: Disk,
                           k: nat)
    requires Shaped(t) && k < |FoldersBelow(t, Root)| && FoldersBelow(t, Root)[k] < |t|
    requires var h, r := FoldersBelow(t, Root)[k], Written(archiveType, archiveFlags, t, archive, disk);
      && |r.1| < Word && |r.0[h].files| < Word && SizesFit(r.0[h].files)
      && Nul !in FullPath(t, h) && |FullPath(t, h)| <= 254
    ensures var h, r := FoldersBelow(t, Root)[k], Written(archiveType, archiveFlags, t, archive, disk);
      && ParseHeader(r.1).Parsed?
      && FolderReadsBack(r.1, HeaderSize + FolderRecordSize * k, ParseHeader(r.1).header.fileNameLength,
                         r.0[h], FullPath(t, h))
  {
    var hs, names, fileNamesLength, header, run := WrittenParts(archiveType, archiveFlags, t, archive, disk);
    HeaderRoundTrip(header, run.1);
    PassesFolderReads(t, hs, names, archive, disk, fileNamesLength, HeaderImage(header), k);
  }

  /** The file count of the header write stores counts the root's own
      files as well as those of the folders collectFolders gives, whose
      names alone write stores: files added to the root are counted and
      never written. */
  lemma RootFilesCounted(archiveType: EType, archiveFlags: U32, t: seq<Folder>)
    requires Shaped(t)
    ensures var hs := FoldersBelow(t, Root);
      && Handles(t, hs)
      && WrittenHeader(archiveType, archiveFlags, t, hs).fileCount
         == (|t[Root].files| + |ListedNames(t, hs, |hs|)|) % Word
  {
    CollectedNames(t, Root);
    CountFilesTotal(t, Root);
  }

  /** Writing at the start of an empty stream. */
  lemma SpliceEmpty(b: seq<Byte>)
    ensures Splice([], 0, b) == b
  {
    SpliceEnd([], b);
  }

  /** Archive: the folder tree under its root, the archive flags, the
      game it is for, and the file it was read from. */
  class Archive {
    var tree: Tree
    var archiveFlags: U32
    var archiveType: EType
    var file: Stream

    ghost predicate Valid()
      reads this, tree
    {
      tree.Valid()
    }

    /** A new archive: an empty root folder, flags "has directory names"
        and "has file names", for Skyrim, and no file open. */
    constructor ()
      ensures Valid() && fresh(tree) && tree.nodes == [Blank()]
      ensures archiveFlags == FlagHasDirNames + FlagHasFileNames && archiveType == Skyrim
      ensures file.data == []
    {
      tree := new Tree();
      archiveFlags := FlagHasDirNames + FlagHasFileNames;
      archiveType := Skyrim;
      file := new Stream([]);
    }

    /** setType */
    method SetType(t: EType)
      modifies this`archiveType
      ensures GetType() == t
    {
      archiveType := t;
    }

    /** getType */
    function GetType(): EType
      reads this
    {
      archiveType
    }

    /** Archive::read: the header, then every folder record with its data
        block, placed in the tree, then the names of the files; contents
        is None when the file cannot be opened. The tree only grows, and
        the type and flags become the header's. */
    method Read(contents: Option<seq<Byte>>, testHashes: bool) returns (r: ReadResult)
      requires Valid()
      modifies this, tree
      ensures Valid() && tree == old(tree) && Grown(old(tree.nodes), tree.nodes)
      ensures r == ReadOutcome(contents, testHashes)
      ensures contents.None? ==> file == old(file)
      ensures contents.Some? ==> file.data == contents.value
      ensures match (if contents.Some? then ParseHeader(contents.value) else Truncated)
        case Parsed(h) => archiveType == h.archiveType && archiveFlags == h.archiveFlags
        case _ => archiveType == old(archiveType) && archiveFlags == old(archiveFlags)
    {
      if contents.None? {
        return Status(ErrorFileNotFound);
      }
      var s := new Stream(contents.value);
      file := s;
      var header := ReadHeader(s);
      match header {
        case NotBsa => return Threw;
        case UnknownType(_) => return Threw;
        case Truncated => return Status(ErrorInvalidData);
        case Parsed(h) =>
          archiveType := h.archiveType;
          archiveFlags := h.archiveFlags;
          r := ReadBody(tree, s, h, testHashes);
      }
    }

    /** Archive::writeHeader: the magic, then the type's identifier, the
        header size, the archive flags, the folder count given, countFiles
        and the other values given, as 32-bit values. */
    method WriteHeader(s: Stream, fileFlags: U32, numFolders: U32, folderNamesLength: U32,
                       fileNamesLength: U32)
      requires Valid() && s.pos <= |s.data|
      modifies s`data, s`pos
      ensures s.data == Splice(old(s.data), old(s.pos),
        HeaderImage(Header(archiveType, HeaderSize, archiveFlags, numFolders, CountFiles(tree.nodes, Root),
                           folderNamesLength, fileNamesLength, fileFlags)))
      ensures s.pos == old(s.pos) + HeaderSize
    {
      ghost var d, p := s.data, s.pos;
      var fileCount := CountFiles(tree.nodes, Root);
      var typeId, flags := TypeToId(archiveType), archiveFlags;
      HeaderImageParts(Header(archiveType, HeaderSize, flags, numFolders, fileCount,
                              folderNamesLength, fileNamesLength, fileFlags));
      SpliceNext(d, p, [], p, Magic);
      assert Splice(d, p, []) == d;
      s.Write(Magic);
      WriteWord(s, typeId, d, p, Magic);
      WriteWord(s, HeaderSize, d, p, Magic + TypeImage(ULong, typeId));
      ghost var w := Magic + TypeImage(ULong, typeId) + TypeImage(ULong, HeaderSize);
      WriteWord(s, flags, d, p, w);
      w := w + TypeImage(ULong, flags);
      WriteWord(s, numFolders, d, p, w);
      w := w + TypeImage(ULong, numFolders);
      WriteWord(s, fileCount, d, p, w);
      w := w + TypeImage(ULong, fileCount);
      WriteWord(s, folderNamesLength, d, p, w);
      w := w + TypeImage(ULong, folderNamesLength);
      WriteWord(s, fileNamesLength, d, p, w);
      w := w + TypeImage(ULong, fileNamesLength);
      WriteWord(s, fileFlags, d, p, w);
    }

    /** Archive::write: canOpen says whether the output file could be
        opened, disk holds the files new entries are read from, and
        written is what ends up in the output file. Stored files' payloads
        are read from the archive this was read from. */
    method Write(canOpen: bool, disk: Disk) returns (result: ErrorCode, written: seq<Byte>)
      requires Valid()
      modifies tree, file`pos
      ensures Valid() && tree == old(tree)
      ensures !canOpen ==> result == ErrorAccessFailed && written == [] && tree.nodes == old(tree.nodes)
      ensures canOpen ==>
        && result == ErrorNone
        && (tree.nodes, written) == Written(archiveType, archiveFlags, old(tree.nodes), file.data, disk)
    {
      if !canOpen {
        return ErrorAccessFailed, [];
      }
      written := WriteOpened(disk);
      result := ErrorNone;
    }

    /** The part of Archive::write after the output file is open. */
    method WriteOpened(disk: Disk) returns (written: seq<Byte>)
      requires Valid()
      modifies tree, file`pos
      ensures Valid()
      ensures (tree.nodes, written) == Written(archiveType, archiveFlags, old(tree.nodes), file.data, disk)
    {
      ghost var t, source := tree.nodes, file.data;
      var outfile := new Stream([]);
      var folders := tree.CollectFolders(Root, []);
      FolderNamesArePaths(t, Root);
      var folderNames, fileNames, folderNamesLength, fileNamesLength := GatherNames(tree, folders);
      var fileFlags := DetermineFileFlags(fileNames);
      WriteHeader(outfile, fileFlags, |folderNames| % Word, folderNamesLength, fileNamesLength);
      assert tree.nodes == t && file.data == source;
      WritePasses(tree, folders, fileNames, file, outfile, disk, fileNamesLength);
      ghost var hs, names, fnl, header, run := WrittenParts(archiveType, archiveFlags, t, file.data, disk);
      SpliceEmpty(HeaderImage(header));
      written := outfile.data;
    }
  }
}
