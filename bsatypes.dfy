/** Byte-level building blocks of the archive format: the fixed-width
    integer codec (readType/writeType), the two string encodings
    (B-strings and Z-strings) and a byte stream with a cursor. */
module BsaTypes {

  /** One byte of an archive stream (an unsigned char). */
  newtype Byte = b: int | 0 <= b < 256

  datatype Option<T> = None | Some(value: T)

  /** The library's error codes, in declaration order. */
  datatype ErrorCode =
    | ErrorNone
    | ErrorInvalidHashes
    | ErrorFileNotFound
    | ErrorInvalidData
    | ErrorAccessFailed
    | ErrorZlibInitFailed
    | ErrorSourceFileMissing
    | ErrorCanceled

  /** BSAULong: a 32-bit unsigned value. */
  type U32 = x: nat | x < 0x1_0000_0000

  /** BSAHash: a 64-bit unsigned value. */
  type U64 = x: nat | x < 0x1_0000_0000_0000_0000

  /** FILENAME_MAX of the Windows C runtime the library is built against. */
  const FilenameMax: nat := 260

  const Nul: Byte := 0x00

  // ---------------------------------------------------------------------
  // Fixed-width integers

  /** The integer types the library reads and writes: unsigned char,
      BSAULong (32-bit unsigned) and BSAHash (64-bit unsigned). */
  datatype Width = UChar | ULong | Hash

  /** sizeof(T) */
  function Size(w: Width): nat
  {
    match w
    case UChar => 1
    case ULong => 4
    case Hash => 8
  }

  function Pow256(n: nat): (p: nat)
    ensures p > 0
  {
    if n == 0 then 1 else 256 * Pow256(n - 1)
  }

  /** Number of values of type T. */
  function Limit(w: Width): nat
  {
    match w
    case UChar => 0x100
    case ULong => 0x1_0000_0000
    case Hash => 0x1_0000_0000_0000_0000
  }

  /** T holds exactly sizeof(T) bytes' worth of values. */
  lemma LimitBytes(w: Width)
    ensures Limit(w) == Pow256(Size(w))
  {
    match w
    case UChar =>
    case ULong => assert Pow256(4) == 0x1_0000_0000;
    case Hash => assert Pow256(8) == 0x1_0000_0000_0000_0000;
  }

  /** The conversion of an argument to the unsigned type T that happens
      before writeType<T> sees it: reduction modulo 2^(8*sizeof(T)). */
  function Convert(w: Width, v: int): (r: nat)
    ensures r < Limit(w)
  {
    match w
    case UChar => v % 0x100
    case ULong => v % 0x1_0000_0000
    case Hash => v % 0x1_0000_0000_0000_0000
  }

  /** A value that fits the width converts to itself. */
  lemma ConvertFits(w: Width, v: int)
    requires 0 <= v < Limit(w)
    ensures Convert(w, v) == v
  {
  }

  /** The in-memory image of v on a little-endian machine, n bytes long. */
  function LittleEndian(v: nat, n: nat): (r: seq<Byte>)
    ensures |r| == n
  {
    if n == 0 then [] else [(v % 256) as Byte] + LittleEndian(v / 256, n - 1)
  }

  /** The value whose little-endian image is s. */
  function FromLittleEndian(s: seq<Byte>): nat
  {
    if s == [] then 0 else s[0] as nat + 256 * FromLittleEndian(s[1..])
  }

  lemma {:induction false} FromLittleEndianBound(s: seq<Byte>)
    ensures FromLittleEndian(s) < Pow256(|s|)
  {
    if s != [] {
      FromLittleEndianBound(s[1..]);
    }
  }

  /** Reading back an image gives the value, when the value fits. */
  lemma {:induction false} LittleEndianRoundTrip(v: nat, n: nat)
    requires v < Pow256(n)
    ensures FromLittleEndian(LittleEndian(v, n)) == v
  {
    if n > 0 {
      LittleEndianRoundTrip(v / 256, n - 1);
      var r := LittleEndian(v, n);
      assert r[1..] == LittleEndian(v / 256, n - 1);
      assert r[0] as nat == v % 256;
    }
  }

  /** Every n-byte image is the image of the value it decodes to. */
  lemma {:induction false} LittleEndianOfDecoded(s: seq<Byte>)
    ensures LittleEndian(FromLittleEndian(s), |s|) == s
  {
    if s != [] {
      LittleEndianOfDecoded(s[1..]);
      var v := FromLittleEndian(s);
      assert v % 256 == s[0] as nat;
      assert v / 256 == FromLittleEndian(s[1..]);
    }
  }

  /** The image of a written value: writeType<T>(v) emits exactly sizeof(T)
      bytes, the image of v converted to T. */
  function TypeImage(w: Width, v: int): (r: seq<Byte>)
    ensures |r| == Size(w)
  {
    LittleEndian(Convert(w, v), Size(w))
  }

  /** The image of v decodes to v converted to T. */
  lemma TypeImageValue(w: Width, v: int)
    ensures FromLittleEndian(TypeImage(w, v)) == Convert(w, v)
  {
    LimitBytes(w);
    LittleEndianRoundTrip(Convert(w, v), Size(w));
  }

  /** writeType<unsigned char>(v) writes the single byte v mod 256: the
      length byte of a B-string of 255 bytes or more wraps to 0. */
  lemma UCharWraps(v: int)
    ensures TypeImage(UChar, v) == [(v % 256) as Byte]
  {
    assert Size(UChar) == 1;
  }

  // ---------------------------------------------------------------------
  // Reading from a byte sequence at a position

  /** The n bytes at position p, if the stream holds that many. */
  function BytesAt(d: seq<Byte>, p: nat, n: nat): (r: Option<seq<Byte>>)
    ensures r.Some? <==> p + n <= |d|
    ensures r.Some? ==> r.value == d[p..p + n]
  {
    if p + n <= |d| then Some(d[p..p + n]) else None
  }

  /** readType<T> at position p: the value and the position after it. */
  function ParseType(d: seq<Byte>, p: nat, w: Width): (r: Option<(nat, nat)>)
    ensures r.Some? ==> r.value.1 == p + Size(w) <= |d| && r.value.0 < Limit(w)
  {
    if p + Size(w) <= |d| then
      LimitBytes(w);
      FromLittleEndianBound(d[p..p + Size(w)]);
      Some((FromLittleEndian(d[p..p + Size(w)]), p + Size(w)))
    else None
  }

  /** readType<T> applied where writeType<T>(v) wrote gives back v converted to T. */
  lemma ParseTypeImage(d: seq<Byte>, p: nat, w: Width, v: int)
    requires p + Size(w) <= |d| && d[p..p + Size(w)] == TypeImage(w, v)
    ensures ParseType(d, p, w) == Some((Convert(w, v), p + Size(w)))
  {
    TypeImageValue(w, v);
  }

  /** The first n bytes of s up to (not including) its first NUL. */
  function CutAtNul(s: seq<Byte>): (r: seq<Byte>)
    ensures |r| <= |s| && r == s[..|r|]
    ensures Nul !in r
    ensures |r| < |s| ==> s[|r|] == Nul
  {
    if s == [] || s[0] == Nul then [] else [s[0]] + CutAtNul(s[1..])
  }

  /** CutAtNul stops at the first NUL, or at the end. */
  lemma {:induction false} CutAtNulAt(s: seq<Byte>, k: nat)
    requires k <= |s| && Nul !in s[..k] && (k == |s| || s[k] == Nul)
    ensures CutAtNul(s) == s[..k]
  {
    if k > 0 {
      assert s[0] == s[..k][0];
      assert s[1..][..k - 1] == s[1..k];
      assert s[..k] == [s[0]] + s[1..k];
      CutAtNulAt(s[1..], k - 1);
    }
  }

  lemma {:induction false} CutAtNulFree(s: seq<Byte>)
    requires Nul !in s
    ensures CutAtNul(s + [Nul]) == s
  {
    if s != [] {
      assert (s + [Nul])[1..] == s[1..] + [Nul];
      CutAtNulFree(s[1..]);
    }
  }

  // ---------------------------------------------------------------------
  // B-strings: one length byte (length + 1), then the characters and a NUL

  /** The bytes writeBString emits: the length is clipped to 255, the
      length byte holds length + 1 as an unsigned char, then length + 1
      bytes of the string's C representation follow. */
  function EncodeBString(s: seq<Byte>): (r: seq<Byte>)
    ensures |r| == (if |s| < 255 then |s| else 255) + 2
  {
    var length := if |s| < 255 then |s| else 255;
    TypeImage(UChar, length + 1) + (s + [Nul])[..length + 1]
  }

  /** readBString at position p: a length byte L, then exactly L bytes,
      returned up to their first NUL. */
  function ParseBString(d: seq<Byte>, p: nat): (r: Option<(seq<Byte>, nat)>)
    ensures r.Some? ==> p < r.value.1 <= |d| && Nul !in r.value.0
    ensures r.Some? ==> r.value.1 == p + 1 + d[p] as nat
  {
    if p < |d| && p + 1 + d[p] as nat <= |d| then
      Some((CutAtNul(d[p + 1..p + 1 + d[p] as nat]), p + 1 + d[p] as nat))
    else None
  }

  /** readBString inverts writeBString for NUL-free strings of at most 254 bytes. */
  lemma BStringRoundTrip(d: seq<Byte>, p: nat, s: seq<Byte>)
    requires Nul !in s && |s| <= 254
    requires p + |s| + 2 <= |d| && d[p..p + |s| + 2] == EncodeBString(s)
    ensures ParseBString(d, p) == Some((s, p + |s| + 2))
  {
    var e := EncodeBString(s);
    assert d[p] == e[0];
    assert e[0] as nat == |s| + 1;
    assert (s + [Nul])[..|s| + 1] == s + [Nul];
    assert d[p + 1..p + |s| + 2] == e[1..] == s + [Nul];
    CutAtNulFree(s);
  }

  /** For 255 or more bytes the length byte wraps to 0 while 257 bytes are
      written: reading back yields the empty string after one byte. */
  lemma BStringOverflow(d: seq<Byte>, p: nat, s: seq<Byte>)
    requires |s| >= 255
    requires p + 257 <= |d| && d[p..p + 257] == EncodeBString(s)
    ensures EncodeBString(s)[0] == 0
    ensures ParseBString(d, p) == Some(([], (p + 1) as nat))
  {
    assert d[p] == EncodeBString(s)[0];
  }

  // ---------------------------------------------------------------------
  // Z-strings: the characters followed by one NUL

  /** The bytes writeZString emits. */
  function EncodeZString(s: seq<Byte>): (r: seq<Byte>)
    ensures |r| == |s| + 1 && r[|s|] == Nul && r[..|s|] == s
  {
    s + [Nul]
  }

  /** The names written one after another as Z-strings. */
  function ZStrings(list: seq<seq<Byte>>): (r: seq<Byte>)
    decreases |list|
  {
    if list == [] then [] else ZStrings(list[..|list| - 1]) + EncodeZString(list[|list| - 1])
  }

  /** The sum of the lengths of the names, without terminators. */
  function LengthSum(list: seq<seq<Byte>>): nat
    decreases |list|
  {
    if list == [] then 0 else LengthSum(list[..|list| - 1]) + |list[|list| - 1]|
  }

  /** The names as Z-strings take their lengths plus one terminator each:
      the totals write stores in the header omit the terminators that
      countCharacters counts. */
  lemma {:induction false} ZStringsLength(list: seq<seq<Byte>>)
    ensures |ZStrings(list)| == LengthSum(list) + |list|
    decreases |list|
  {
    if list != [] {
      ZStringsLength(list[..|list| - 1]);
    }
  }

  /** Number of bytes before the first NUL at or after p, if a NUL
      follows within the stream. */
  function NulDistance(d: seq<Byte>, p: nat): (r: Option<nat>)
    decreases |d| - p
    ensures r.Some? ==> p + r.value < |d| && d[p + r.value] == Nul
    ensures r.Some? ==> Nul !in d[p..p + r.value]
    ensures r.None? && p <= |d| ==> Nul !in d[p..]
  {
    if p >= |d| then None
    else if d[p] == Nul then Some(0)
    else match NulDistance(d, p + 1)
      case None => None
      case Some(k) => Some(k + 1)
  }

  /** readZString at position p: getline with FILENAME_MAX and delimiter NUL.
      It succeeds when a NUL follows within FILENAME_MAX - 1 characters; the
      characters are returned and the NUL is consumed. */
  function ParseZString(d: seq<Byte>, p: nat): (r: Option<(seq<Byte>, nat)>)
    ensures r.Some? ==> |r.value.0| < FilenameMax && Nul !in r.value.0
    ensures r.Some? ==> r.value.1 == p + |r.value.0| + 1 <= |d|
    ensures r.Some? ==> d[p..r.value.1] == EncodeZString(r.value.0)
  {
    match NulDistance(d, p)
    case Some(k) =>
      if k < FilenameMax then Some((d[p..p + k], p + k + 1)) else None
    case None => None
  }

  /** Where getline stops when it fails: at the end of the stream, or
      after FILENAME_MAX - 1 characters without a NUL. */
  function ZStringStop(d: seq<Byte>, p: nat): (r: nat)
    ensures p <= r
  {
    if p >= |d| then p
    else if p + FilenameMax - 1 <= |d| then p + FilenameMax - 1
    else |d|
  }

  /** getline(buffer, FILENAME_MAX, '\0') into a zeroed buffer, on a
      stream at p that is good or not: the string the buffer then holds,
      where the stream stands and whether it is still good. A stream that
      is not good extracts nothing. A good one reads up to its terminator,
      which it consumes (ParseZString), and stays good; it stops instead at
      the end of the stream or after FILENAME_MAX - 1 characters, and then
      keeps the characters extracted so far and is no longer good. */
  function GetLine(d: seq<Byte>, p: nat, good: bool): (r: (seq<Byte>, nat, bool))
    ensures |r.0| < FilenameMax && Nul !in r.0 && p <= r.1
    ensures !good ==> r == ([], p, false)
    ensures r.2 <==> good && ParseZString(d, p).Some?
    ensures r.2 ==> ParseZString(d, p) == Some((r.0, r.1))
    ensures good && !r.2 ==> r.1 == ZStringStop(d, p)
    ensures good && !r.2 && p <= |d| ==> r.0 == d[p..r.1]
  {
    if !good then ([], p, false)
    else match ParseZString(d, p)
      case Some((s, q)) => (s, q, true)
      case None =>
        if p >= |d| then ([], p, false)
        else StopNulFree(d, p); (d[p..ZStringStop(d, p)], ZStringStop(d, p), false)
  }

  /** When getline fails inside the stream, the characters up to where it
      stops hold no NUL and are fewer than FILENAME_MAX. */
  lemma StopNulFree(d: seq<Byte>, p: nat)
    requires p < |d| && ParseZString(d, p).None?
    ensures ZStringStop(d, p) < p + FilenameMax && Nul !in d[p..ZStringStop(d, p)]
  {
    var e := ZStringStop(d, p);
    match NulDistance(d, p)
    case None =>
      assert d[p..e] == d[p..][..e - p];
    case Some(k) =>
      assert d[p..e] == d[p..p + k][..e - p];
  }

  /** A name whose first FILENAME_MAX - 1 characters are followed by
      no terminator, or which runs to the end of the stream without one:
      a good stream returns the characters up to where getline stops and
      is no longer good. */
  lemma GetLineUnterminated(d: seq<Byte>, p: nat, e: nat)
    requires p <= |d| && e == (if p + FilenameMax - 1 <= |d| then p + FilenameMax - 1 else |d|)
    requires Nul !in d[p..e] && (e < |d| ==> d[e] != Nul)
    ensures GetLine(d, p, true) == (d[p..e], e, false)
  {
    NulFreeRun(d, p, e - p);
  }

  lemma {:induction false} NulDistanceOf(d: seq<Byte>, p: nat, k: nat)
    requires p + k < |d| && d[p + k] == Nul && Nul !in d[p..p + k]
    ensures NulDistance(d, p) == Some(k)
    decreases k
  {
    if k > 0 {
      assert d[p] == d[p..p + k][0];
      assert d[p + 1..p + k] == d[p..p + k][1..];
      NulDistanceOf(d, p + 1, k - 1);
    }
  }

  /** readZString inverts writeZString for NUL-free strings shorter than FILENAME_MAX. */
  lemma ZStringRoundTrip(d: seq<Byte>, p: nat, s: seq<Byte>)
    requires Nul !in s && |s| < FilenameMax
    requires p + |s| + 1 <= |d| && d[p..p + |s| + 1] == EncodeZString(s)
    ensures ParseZString(d, p) == Some((s, p + |s| + 1))
  {
    assert d[p + |s|] == d[p..p + |s| + 1][|s|];
    assert d[p..p + |s|] == d[p..p + |s| + 1][..|s|];
    NulDistanceOf(d, p, |s|);
  }

  // ---------------------------------------------------------------------
  // The stream

  /** Writing b at position p: b replaces the bytes it covers and the
      stream grows when b reaches past its end. */
  function Splice(d: seq<Byte>, p: nat, b: seq<Byte>): (r: seq<Byte>)
    requires p <= |d|
    ensures |r| == if p + |b| <= |d| then |d| else p + |b|
  {
    d[..p] + b + if p + |b| <= |d| then d[p + |b|..] else []
  }

  /** What a write leaves: the bytes before p, then b, then the old bytes
      past the end of b. */
  lemma SpliceParts(d: seq<Byte>, p: nat, b: seq<Byte>)
    requires p <= |d|
    ensures Splice(d, p, b)[..p] == d[..p] && Splice(d, p, b)[p..p + |b|] == b
    ensures p + |b| <= |d| ==> Splice(d, p, b)[p + |b|..] == d[p + |b|..]
  {
    var r := Splice(d, p, b);
    assert r == d[..p] + b + (if p + |b| <= |d| then d[p + |b|..] else []);
  }

  /** A stretch of bytes holding x followed by y holds x, then y. */
  lemma SplitSlice(d: seq<Byte>, p: nat, m: nat, e: nat, x: seq<Byte>, y: seq<Byte>)
    requires p <= m <= e <= |d| && |x| == m - p && d[p..e] == x + y
    ensures d[p..m] == x && d[m..e] == y
  {
    assert d[p..m] == d[p..e][..m - p];
    assert d[m..e] == d[p..e][m - p..];
  }

  /** Two consecutive writes are one write of their concatenation. */
  lemma SpliceAppend(d: seq<Byte>, p: nat, a: seq<Byte>, b: seq<Byte>)
    requires p <= |d|
    ensures Splice(Splice(d, p, a), p + |a|, b) == Splice(d, p, a + b)
  {
    var r := Splice(Splice(d, p, a), p + |a|, b);
    var e := Splice(d, p, a + b);
    assert |r| == |e|;
    forall i | 0 <= i < |r|
      ensures r[i] == e[i]
    {
      if i < p {
        assert r[i] == r[..p][i];
      } else if i < p + |a| {
        assert r[i] == r[..p + |a|][i];
      } else if i < p + |a| + |b| {
        assert r[i] == r[p + |a|..p + |a| + |b|][i - p - |a|];
      }
    }
  }

  /** SpliceAppend with the second write's position given as q. */
  lemma SpliceNext(d: seq<Byte>, p: nat, a: seq<Byte>, q: nat, b: seq<Byte>)
    requires p <= |d| && q == p + |a|
    ensures Splice(Splice(d, p, a), q, b) == Splice(d, p, a + b)
    ensures q + |b| == p + |a + b|
  {
    SpliceAppend(d, p, a, b);
  }

  /** A prefix one longer is the prefix and the next element. */
  lemma TakeNext<T>(xs: seq<T>, m: nat)
    requires m < |xs|
    ensures xs[..m + 1] == xs[..m] + [xs[m]]
  {
  }

  /** Writing at the end of the stream appends. */
  lemma SpliceEnd(d: seq<Byte>, b: seq<Byte>)
    ensures Splice(d, |d|, b) == d + b
  {
    assert d[..|d|] == d;
  }

  /** Writing over a stretch with as many bytes replaces that stretch and
      keeps what lies on either side. */
  lemma Overwrite(a: seq<Byte>, b: seq<Byte>, c: seq<Byte>, b': seq<Byte>)
    requires |b'| == |b|
    ensures Splice(a + b + c, |a|, b') == a + b' + c
  {
    var d := a + b + c;
    assert d[..|a|] == a;
    assert d[|a| + |b'|..] == c;
  }

  /** A file stream: its contents, the read/write position and whether
      its state is good (no end of file or failure flagged by getline). */
  class Stream {
    var data: seq<Byte>
    var pos: nat
    var good: bool

    constructor (contents: seq<Byte>)
      ensures data == contents && pos == 0 && good
    {
      data := contents;
      pos := 0;
      good := true;
    }

    /** seekg / seekp to an absolute position. */
    method Seek(p: nat)
      modifies this`pos
      ensures pos == p
    {
      pos := p;
    }

    /** read(buffer, n): the next n bytes, or a failed stream. */
    method Read(n: nat) returns (r: Option<seq<Byte>>)
      modifies this`pos
      ensures r == BytesAt(data, old(pos), n)
      ensures r.Some? ==> pos == old(pos) + n
    {
      r := BytesAt(data, pos, n);
      if r.Some? {
        pos := pos + n;
      }
    }

    /** write(buffer, n) at the current position. */
    method Write(b: seq<Byte>)
      requires pos <= |data|
      modifies this`data, this`pos
      ensures data == Splice(old(data), old(pos), b)
      ensures pos == old(pos) + |b|
    {
      data := Splice(data, pos, b);
      pos := pos + |b|;
    }

    /** readType<T>: consumes exactly sizeof(T) bytes. */
    method ReadType(w: Width) returns (r: Option<nat>)
      modifies this`pos
      ensures ParseType(data, old(pos), w).Some? <==> r.Some?
      ensures r.Some? ==> (r.value, pos) == ParseType(data, old(pos), w).value
    {
      var buffer := Read(Size(w));
      if buffer.None? {
        return None;
      }
      r := Some(FromLittleEndian(buffer.value));
    }

    /** writeType<T>: emits the sizeof(T)-byte image of the value converted to T. */
    method WriteType(w: Width, value: int)
      requires pos <= |data|
      modifies this`data, this`pos
      ensures data == Splice(old(data), old(pos), TypeImage(w, value))
      ensures pos == old(pos) + Size(w)
    {
      Write(TypeImage(w, value));
    }

    method ReadBString() returns (r: Option<seq<Byte>>)
      modifies this`pos
      ensures ParseBString(data, old(pos)).Some? <==> r.Some?
      ensures r.Some? ==> (r.value, pos) == ParseBString(data, old(pos)).value
    {
      var length := ReadType(UChar);
      if length.None? {
        return None;
      }
      var buffer: seq<Byte> := [];
      if length.value > 0 {
        var chars := Read(length.value);
        if chars.None? {
          return None;
        }
        buffer := chars.value;
      }
      r := Some(CutAtNul(buffer));
    }

    method WriteBString(s: seq<Byte>)
      requires pos <= |data|
      modifies this`data, this`pos
      ensures data == Splice(old(data), old(pos), EncodeBString(s))
      ensures pos == old(pos) + |EncodeBString(s)|
    {
      var length := if |s| < 255 then |s| else 255;
      var start := pos;
      WriteType(UChar, length + 1);
      Write((s + [Nul])[..length + 1]);
      assert data == Splice(old(data), start, EncodeBString(s));
    }

    /** getline(buffer, FILENAME_MAX, '\0') into a zeroed buffer: the
        string the buffer then holds. */
    method ReadZString() returns (name: seq<Byte>)
      modifies this`pos, this`good
      ensures (name, pos, good) == GetLine(data, old(pos), old(good))
    {
      if !good {
        return [];
      }
      if pos >= |data| {
        good := false;
        return [];
      }
      var buffer := new Byte[FilenameMax](_ => Nul);
      var count := 0;
      while true
        invariant count < FilenameMax && good
        invariant pos == old(pos) + count <= |data|
        invariant Nul !in data[old(pos)..pos]
        invariant buffer[..count] == data[old(pos)..pos]
        decreases FilenameMax - count
      {
        if pos >= |data| {
          GetLineUnterminated(data, old(pos), pos);
          good := false;
          return buffer[..count];
        }
        var c := data[pos];
        if c == Nul {
          pos := pos + 1;
          NulDistanceOf(data, old(pos), count);
          return buffer[..count];
        }
        if count + 1 >= FilenameMax {
          GetLineUnterminated(data, old(pos), pos);
          good := false;
          return buffer[..count];
        }
        buffer[count] := c;
        assert data[old(pos)..pos + 1] == data[old(pos)..pos] + [c];
        count := count + 1;
        pos := pos + 1;
      }
    }

    method WriteZString(s: seq<Byte>)
      requires pos <= |data|
      modifies this`data, this`pos
      ensures data == Splice(old(data), old(pos), EncodeZString(s))
      ensures pos == old(pos) + |s| + 1
    {
      Write(s + [Nul]);
    }
  }

  /** When the k bytes after p hold no NUL, no NUL lies within distance k. */
  lemma {:induction false} NulFreeRun(d: seq<Byte>, p: nat, k: nat)
    requires p + k <= |d| && Nul !in d[p..p + k]
    ensures NulDistance(d, p).None? || NulDistance(d, p).value >= k
    decreases k
  {
    if k > 0 && p < |d| {
      assert d[p] == d[p..p + k][0];
      assert d[p + 1..p + k] == d[p..p + k][1..];
      NulFreeRun(d, p + 1, k - 1);
    }
  }
}
