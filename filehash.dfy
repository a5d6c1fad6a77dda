/** The name hash stored in folder and file records (calculateBSAHash).
    The low 32 bits pack the last two characters of the stem, the stem
    length and the first character; the high 32 bits hold a polynomial
    hash of the stem's interior plus one of the extension. */
module FileHash {
  import opened BsaTypes
  import opened Bits

  const Dot: Byte := 0x2E
  const Backslash: Byte := 0x5C
  const Slash: Byte := 0x2F

  /** The multiplier of genHashInt. */
  const Multiplier: nat := 0x1003F

  /** tolower in the "C" locale: only A-Z change. */
  function ToLower(c: Byte): Byte
  {
    if 0x41 <= c <= 0x5A then c + 0x20 else c
  }

  function ToUpper(c: Byte): Byte
  {
    if 0x61 <= c <= 0x7A then c - 0x20 else c
  }

  /** One character of the hashed name: lower-cased, '\\' turned into '/'. */
  function NormalizeChar(c: Byte): (r: Byte)
    ensures r == Nul <==> c == Nul
    ensures r != Backslash && !(0x41 <= r <= 0x5A)
  {
    var l := ToLower(c);
    if l == Backslash then Slash else l
  }

  function MapBytes(f: Byte -> Byte, s: seq<Byte>): (r: seq<Byte>)
    ensures |r| == |s| && forall i :: 0 <= i < |s| ==> r[i] == f(s[i])
  {
    seq(|s|, i requires 0 <= i < |s| => f(s[i]))
  }

  /** The C string the hash sees: the name up to its first NUL, at most
      FILENAME_MAX characters. */
  function Clip(name: seq<Byte>): (r: seq<Byte>)
    ensures |r| <= FilenameMax && Nul !in r
  {
    var c := CutAtNul(name);
    if |c| <= FilenameMax then c else c[..FilenameMax]
  }

  /** The buffer fileNameLower after the normalising loop. */
  function Normalized(name: seq<Byte>): (n: seq<Byte>)
    ensures |n| <= FilenameMax && Nul !in n
  {
    MapBytes(NormalizeChar, Clip(name))
  }

  /** strrchr(n, '.'): the index of the last dot. */
  function LastDot(n: seq<Byte>): (r: Option<nat>)
    ensures r.Some? ==> r.value < |n| && n[r.value] == Dot && Dot !in n[r.value + 1..]
    ensures r.None? ==> Dot !in n
  {
    if n == [] then None
    else if n[|n| - 1] == Dot then Some(|n| - 1)
    else LastDot(n[..|n| - 1])
  }

  /** ext - fileNameLower: the length of the stem, the whole name when it has no dot. */
  function StemLength(n: seq<Byte>): (l: nat)
    ensures l <= |n|
  {
    match LastDot(n)
    case Some(k) => k
    case None => |n|
  }

  /** One step of genHashInt in unsigned long (32-bit) arithmetic:
      hash *= 0x1003f; hash += c. */
  function Step(hash: nat, c: Byte): (r: nat)
    ensures r < Word
  {
    ((hash * Multiplier) % Word + c as nat) % Word
  }

  /** genHashInt over s. */
  function G(s: seq<Byte>): (r: nat)
    ensures r < Word
  {
    if s == [] then 0 else Step(G(s[..|s| - 1]), s[|s| - 1])
  }

  lemma GStep(s: seq<Byte>, c: Byte)
    ensures G(s + [c]) == Step(G(s), c)
  {
    var t := s + [c];
    assert t[..|t| - 1] == s;
  }

  /** A char of the name promoted to int, as a 32-bit pattern: char is
      signed, so bytes from 0x80 up are sign-extended. */
  function SignedChar(c: Byte): (r: nat)
    ensures r < Word
  {
    if c < 0x80 then c as nat else c as nat + 0xFFFF_FF00
  }

  /** The int expression packing the stem: its last character, the one
      before it (promoted; 0 for stems of at most two characters), its
      length and its first character, each shifted to its byte and the
      shifted values truncated to 32 bits. */
  function Pack(last: Byte, second: nat, length: nat, first: Byte): nat
  {
    BitOr(BitOr(BitOr(last as nat, Truncate(second * 0x100)), Truncate(length * 0x1_0000)),
          Truncate(first as nat * 0x100_0000))
  }

  /** A value truncated to its low 32 bits. */
  function Truncate(x: nat): (r: nat)
    ensures r < Word
    ensures x < Word ==> r == x
  {
    x % Word
  }

  /** The conversion of that int to the 64-bit hash type: negative values
      are sign-extended. */
  function SignExtend(w: nat): nat
  {
    if w < 0x8000_0000 then w else w + 0xFFFF_FFFF_0000_0000
  }

  /** The flag for the well-known extensions (text after the dot). */
  function ExtFlag(ext: seq<Byte>): nat
  {
    if ext == [0x6B, 0x66] then 0x80                       // kf
    else if ext == [0x6E, 0x69, 0x66] then 0x8000          // nif
    else if ext == [0x64, 0x64, 0x73] then 0x8080          // dds
    else if ext == [0x77, 0x61, 0x76] then 0x8000_0000     // wav
    else 0
  }

  /** The stem's interior: characters 1 .. length-3, empty for short stems. */
  function Interior(n: seq<Byte>, length: nat): seq<Byte>
    requires length <= |n|
  {
    if length >= 3 then n[1..length - 2] else []
  }

  /** The high word: genHashInt of the interior plus genHashInt of the
      extension including its dot, truncated to 32 bits. */
  function HighWord(n: seq<Byte>, length: nat): (r: nat)
    requires length <= |n|
    ensures r < Word
  {
    Truncate(G(Interior(n, length)) + G(n[length..]))
  }

  /** The packed stem, 0 for an empty stem. */
  function StemWord(n: seq<Byte>): nat
  {
    var length := StemLength(n);
    if length > 0 then
      Pack(n[length - 1], if length > 2 then SignedChar(n[length - 2]) else 0, length, n[0])
    else 0
  }

  /** The hash of an already normalised name: the sign-extended stem word,
      and for a name with a dot the extension flag and the high word. */
  function HashOfNormalized(n: seq<Byte>): nat
  {
    var length := StemLength(n);
    var low := SignExtend(StemWord(n));
    if length < |n| then BitOr(BitOr(low, ExtFlag(n[length + 1..])), HighWord(n, length) * Word)
    else low
  }

  /** The hash of a file or folder name. */
  function BsaHash(name: seq<Byte>): nat
  {
    HashOfNormalized(Normalized(name))
  }

  // ---------------------------------------------------------------------
  // The imperative computation

  /** genHashInt(pos, end) over a buffer; an empty or inverted range gives 0. */
  method GenHashInt(a: array<Byte>, pos: int, end: int) returns (hash: nat)
    requires 0 <= pos <= a.Length && end <= a.Length
    ensures hash == if pos < end then G(a[pos..end]) else 0
  {
    hash := 0;
    var p := pos;
    while p < end
      invariant pos <= p <= a.Length
      invariant p <= end || p == pos
      invariant hash == G(a[pos..p])
    {
      GStep(a[pos..p], a[p]);
      assert a[pos..p + 1] == a[pos..p] + [a[p]];
      hash := (hash * Multiplier) % Word;
      hash := (hash + a[p] as nat) % Word;
      p := p + 1;
    }
  }

  /** strlen: the index of the first NUL from position from. */
  method StrLen(a: array<Byte>, from: nat, ghost len: nat) returns (r: nat)
    requires from <= len < a.Length && a[len] == Nul && Nul !in a[from..len]
    ensures r == len
  {
    r := from;
    while a[r] != Nul
      invariant from <= r <= len
      decreases len - r
    {
      assert a[r] == a[from..len][r - from];
      r := r + 1;
    }
  }

  /** strrchr(a, '.') on a NUL-terminated buffer: the index of the last dot,
      or -1 when there is none. */
  method StrRChrDot(a: array<Byte>, ghost len: nat) returns (r: int)
    requires len < a.Length && a[len] == Nul && Nul !in a[..len]
    ensures r == match LastDot(a[..len]) case Some(k) => k as int case None => -1
  {
    r := -1;
    var k := 0;
    while a[k] != Nul
      invariant 0 <= k <= len
      invariant r == match LastDot(a[..k]) case Some(j) => j as int case None => -1
      decreases len - k
    {
      assert a[k] == a[..len][k];
      assert a[..k + 1][..k] == a[..k];
      if a[k] == Dot {
        r := k;
      }
      k := k + 1;
    }
  }

  /** The first loop of calculateBSAHash: the name copied into a buffer of
      FILENAME_MAX + 1 characters, lower-cased, with '/' for '\\', and
      NUL-terminated. */
  method NormalizeName(fileName: seq<Byte>) returns (lower: array<Byte>, i: nat)
    ensures fresh(lower) && lower.Length == FilenameMax + 1
    ensures i <= FilenameMax && lower[i] == Nul && lower[..i] == Normalized(fileName)
  {
    lower := new Byte[FilenameMax + 1];
    i := 0;
    while i < FilenameMax && i < |fileName| && fileName[i] != Nul
      invariant 0 <= i <= FilenameMax && i <= |fileName|
      invariant Nul !in fileName[..i]
      invariant lower[..i] == MapBytes(NormalizeChar, fileName[..i])
    {
      assert fileName[..i + 1] == fileName[..i] + [fileName[i]];
      lower[i] := ToLower(fileName[i]);
      if lower[i] == Backslash {
        lower[i] := Slash;
      }
      i := i + 1;
    }
    lower[i] := Nul;
    ClipAt(fileName, i);
  }

  /** calculateBSAHash */
  method CalculateBsaHash(fileName: seq<Byte>) returns (hash: nat)
    ensures hash == BsaHash(fileName)
  {
    var lower, i := NormalizeName(fileName);
    hash := HashBuffer(lower, i);
  }

  /** The rest of calculateBSAHash, on the NUL-terminated buffer
      fileNameLower. */
  method HashBuffer(lower: array<Byte>, ghost len: nat) returns (hash: nat)
    requires len < lower.Length && lower[len] == Nul && Nul !in lower[..len]
    ensures hash == HashOfNormalized(lower[..len])
  {
    ghost var n := lower[..len];
    var ext := StrRChrDot(lower, len);
    if ext < 0 {
      ext := StrLen(lower, 0, len);
    }
    var length := ext;
    assert length == StemLength(n);
    var extEnd := StrLen(lower, ext, len);
    Slices(lower[..], len, length);

    hash := 0;
    if length > 0 {
      var second := if length > 2 then SignedChar(lower[ext - 2]) else 0;
      hash := SignExtend(Pack(lower[ext - 1], second, length, lower[0]));
    }
    ghost var low := hash;
    assert low == SignExtend(StemWord(n));

    if extEnd - ext > 0 {
      assert lower[ext + 1..extEnd] == n[length + 1..];
      hash := AddExtensionFlag(hash, lower[ext + 1..extEnd]);
      ghost var flagged := hash;
      var temp := GenHashInt(lower, 1, ext - 2);
      assert temp == G(Interior(n, length));
      var tail := GenHashInt(lower, ext, extEnd);
      assert tail == G(n[length..]);
      temp := Truncate(temp + tail);
      hash := BitOr(hash, temp * Word);
      HashWithExtension(n, length, low, flagged, temp, hash);
    } else {
      HashParts(n);
    }
  }

  /** The hash of a name with a dot, from its three parts. */
  lemma HashWithExtension(n: seq<Byte>, length: nat, low: nat, flagged: nat, high: nat, hash: nat)
    requires length == StemLength(n) && length < |n| && low == SignExtend(StemWord(n))
    requires flagged == BitOr(low, ExtFlag(n[length + 1..]))
    requires high == HighWord(n, length) && hash == BitOr(flagged, high * Word)
    ensures HashOfNormalized(n) == hash
  {
  }

  /** The flag of a well-known extension ORed into the hash. */
  method AddExtensionFlag(hash: nat, suffix: seq<Byte>) returns (r: nat)
    ensures r == BitOr(hash, ExtFlag(suffix))
  {
    r := hash;
    if suffix == [0x6B, 0x66] {
      r := BitOr(r, 0x80);
    } else if suffix == [0x6E, 0x69, 0x66] {
      r := BitOr(r, 0x8000);
    } else if suffix == [0x64, 0x64, 0x73] {
      r := BitOr(r, 0x8080);
    } else if suffix == [0x77, 0x61, 0x76] {
      r := BitOr(r, 0x8000_0000);
    } else {
      OrZero(r);
    }
  }

  /** HashOfNormalized in terms of its parts. */
  lemma HashParts(n: seq<Byte>)
    ensures var length := StemLength(n);
      var low := SignExtend(StemWord(n));
      HashOfNormalized(n) == if length < |n| then BitOr(BitOr(low, ExtFlag(n[length + 1..])), HighWord(n, length) * Word) else low
  {
  }

  lemma Slices(a: seq<Byte>, i: nat, length: nat)
    requires length <= i <= |a|
    ensures a[..i][length..] == a[length..i]
    ensures length < i ==> a[..i][length + 1..] == a[length + 1..i]
    ensures length >= 3 ==> a[..i][1..length - 2] == a[1..length - 2]
  {
  }

  /** The loop that fills fileNameLower stops exactly at the clipped name. */
  lemma ClipAt(name: seq<Byte>, i: nat)
    requires i <= FilenameMax && i <= |name| && Nul !in name[..i]
    requires i == FilenameMax || i == |name| || name[i] == Nul
    ensures Clip(name) == name[..i]
  {
    var c := CutAtNul(name);
    assert forall j | 0 <= j < i :: name[j] == name[..i][j];
    assert |c| >= i;
  }

  // ---------------------------------------------------------------------
  // Properties of the hash

  /** The empty name hashes to 0, the hash of the root folder. */
  lemma EmptyNameHash()
    ensures BsaHash([]) == 0
  {
    assert Normalized([]) == [];
  }

  lemma CutAtNulMap(f: Byte -> Byte, s: seq<Byte>)
    requires forall c :: f(c) == Nul <==> c == Nul
    ensures CutAtNul(MapBytes(f, s)) == MapBytes(f, CutAtNul(s))
  {
    var c := CutAtNul(s);
    var m := MapBytes(f, s);
    var k := |c|;
    assert forall j | 0 <= j < k :: m[..k][j] == f(c[j]);
    assert m[..k] == MapBytes(f, c);
    CutAtNulAt(m, k);
  }

  /** Any character mapping that the normalisation cannot tell apart from
      the identity leaves the hash unchanged. */
  lemma HashIgnoresMapping(f: Byte -> Byte, name: seq<Byte>)
    requires forall c :: f(c) == Nul <==> c == Nul
    requires forall c :: NormalizeChar(f(c)) == NormalizeChar(c)
    ensures BsaHash(MapBytes(f, name)) == BsaHash(name)
  {
    CutAtNulMap(f, name);
    var c := CutAtNul(name);
    var fc := CutAtNul(MapBytes(f, name));
    assert Clip(MapBytes(f, name)) == MapBytes(f, Clip(name)) by {
      if |c| > FilenameMax {
        assert fc[..FilenameMax] == MapBytes(f, c[..FilenameMax]);
      }
    }
    assert Normalized(MapBytes(f, name)) == Normalized(name);
  }

  /** The hash does not depend on letter case. */
  lemma HashIgnoresCase(name: seq<Byte>)
    ensures BsaHash(MapBytes(ToUpper, name)) == BsaHash(name)
    ensures BsaHash(MapBytes(ToLower, name)) == BsaHash(name)
  {
    HashIgnoresMapping(ToUpper, name);
    HashIgnoresMapping(ToLower, name);
  }

  function SlashToBackslash(c: Byte): Byte
  {
    if c == Slash then Backslash else c
  }

  /** The hash does not depend on the direction of path separators. */
  lemma HashIgnoresSeparator(name: seq<Byte>)
    ensures BsaHash(MapBytes(SlashToBackslash, name)) == BsaHash(name)
  {
    HashIgnoresMapping(SlashToBackslash, name);
  }

  /** Only the characters before the first NUL, and at most FILENAME_MAX of
      them, take part in the hash. */
  lemma HashOfPrefix(name: seq<Byte>, rest: seq<Byte>)
    requires Nul !in name
    ensures BsaHash(name + [Nul] + rest) == BsaHash(name)
    ensures |name| > FilenameMax ==> BsaHash(name) == BsaHash(name[..FilenameMax])
  {
    var s := name + [Nul] + rest;
    var k := if |name| <= FilenameMax then |name| else FilenameMax;
    assert s[..|name|] == name;
    assert s[..k] == name[..k];
    ClipAt(s, k);
    ClipAt(name, k);
    if |name| > FilenameMax {
      assert name[..FilenameMax][..FilenameMax] == name[..FilenameMax];
      ClipAt(name[..FilenameMax], FilenameMax);
    }
  }

  predicate Ascii(n: seq<Byte>)
  {
    forall i :: 0 <= i < |n| ==> n[i] < 0x80
  }

  /** The layout of the hash of a plain ASCII name whose stem is shorter
      than 256 characters: byte 0 is the last stem character, byte 1 the one
      before it (0 for stems of one or two characters), byte 2 the stem
      length and byte 3 the first character; bits 7, 15 and 31 carry the
      extension flag and the high word holds the polynomial hash. A name
      without a dot has neither flag nor high word. */
  lemma HashLayout(name: seq<Byte>)
    requires Ascii(Normalized(name))
    requires 0 < StemLength(Normalized(name)) < 256
    ensures var n := Normalized(name);
      var length := StemLength(n);
      var low := n[length - 1] as nat + 0x100 * (if length > 2 then n[length - 2] as nat else 0)
        + 0x1_0000 * length + 0x100_0000 * n[0] as nat;
      BsaHash(name) == if length < |n| then low + ExtFlag(n[length + 1..]) + Word * HighWord(n, length) else low
  {
    var n := Normalized(name);
    var length := StemLength(n);
    var b := if length > 2 then n[length - 2] as nat else 0;
    assert length > 2 ==> SignedChar(n[length - 2]) == b;
    var low := n[length - 1] as nat + 0x100 * b + 0x1_0000 * length + 0x100_0000 * n[0] as nat;
    PackAscii(n[length - 1], b, length, n[0]);
    assert StemWord(n) == low;
    assert SignExtend(StemWord(n)) == low;
    assert BsaHash(name) == HashOfNormalized(n);
    if length < |n| {
      var flag, high := ExtFlag(n[length + 1..]), HighWord(n, length);
      assert HashOfNormalized(n) == BitOr(BitOr(low, flag), high * Word);
      FlagAndHigh(n[length - 1] as nat, b, length, n[0] as nat, low, flag, high);
      assert BsaHash(name) == low + flag + Word * high;
    } else {
      assert BsaHash(name) == low;
    }
  }

  /** The stem word of ASCII fields is their sum at byte positions 0 to 3. */
  lemma PackAscii(last: Byte, second: nat, length: nat, first: Byte)
    requires last < 0x80 && second < 0x80 && length < 0x100 && first < 0x80
    ensures Pack(last, second, length, first)
      == last as nat + 0x100 * second + 0x1_0000 * length + 0x100_0000 * first as nat
  {
    Pow2Byte();
    Pow2Add(8, 8);
    Pow2Add(16, 8);
    var a := last as nat;
    var b := a + second * 0x100;
    var c := b + length * 0x1_0000;
    assert Truncate(second * 0x100) == second * 0x100;
    assert Truncate(length * 0x1_0000) == length * 0x1_0000;
    assert Truncate(first as nat * 0x100_0000) == first as nat * 0x100_0000;
    OrMul(a, second, 8, 0x100);
    assert BitOr(a, Truncate(second * 0x100)) == b;
    OrMul(b, length, 16, 0x1_0000);
    assert BitOr(b, Truncate(length * 0x1_0000)) == c;
    OrMul(c, first as nat, 24, 0x100_0000);
  }

  /** Adding a known flag and a high word to an ASCII stem word. */
  lemma FlagAndHigh(a: nat, b: nat, l: nat, f: nat, low: nat, flag: nat, high: nat)
    requires a < 0x80 && b < 0x80 && l < 0x100 && f < 0x80 && high < Word
    requires low == a + 0x100 * b + 0x1_0000 * l + 0x100_0000 * f
    requires flag == 0 || flag == 0x80 || flag == 0x8000 || flag == 0x8080 || flag == 0x8000_0000
    ensures BitOr(BitOr(low, flag), high * Word) == low + flag + Word * high
  {
    FlagBits(a, b, l, f, flag);
    assert low < 0x8000_0000;
    OrHighWord(low + flag, high);
  }

  /** None of the flag bits is set in an ASCII stem word. */
  lemma FlagBits(a: nat, b: nat, l: nat, f: nat, flag: nat)
    requires a < 0x80 && b < 0x80 && l < 0x100 && f < 0x80
    requires flag == 0 || flag == 0x80 || flag == 0x8000 || flag == 0x8080 || flag == 0x8000_0000
    ensures var low := a + 0x100 * b + 0x1_0000 * l + 0x100_0000 * f;
      BitOr(low, flag) == low + flag
  {
    var upper := l + 0x100 * f;
    var rest := b + 0x100 * upper;
    if flag == 0 {
      OrZero(a + 0x100 * rest);
    } else if flag == 0x80 {
      FlagSeven(a, rest, 1);
    } else if flag == 0x8000 {
      FlagFifteen(a + 0x100 * b, upper);
    } else if flag == 0x8080 {
      RestBitSeven(b, upper);
      FlagSeven(a, rest, 257);
    } else {
      FlagThirtyOne(a + 0x100 * rest);
    }
  }

  lemma FlagSeven(a: nat, rest: nat, m: nat)
    requires a < 0x80 && Disjoint(2 * rest, m)
    ensures BitOr(a + 0x100 * rest, m * 0x80) == a + 0x100 * rest + m * 0x80
  {
    Pow2Byte();
    ShrMulSum(a, 2 * rest, 7, 0x80);
    OrMulDisjoint(a + 0x80 * (2 * rest), m, 7, 0x80);
  }

  lemma FlagFifteen(x: nat, upper: nat)
    requires x < 0x8000
    ensures BitOr(x + 0x1_0000 * upper, 0x8000) == x + 0x1_0000 * upper + 0x8000
  {
    Pow2Fifteen();
    ShrMulSum(x, 2 * upper, 15, 0x8000);
    OrMulDisjoint(x + 0x8000 * (2 * upper), 1, 15, 0x8000);
  }

  lemma FlagThirtyOne(x: nat)
    requires x < 0x8000_0000
    ensures BitOr(x, 0x8000_0000) == x + 0x8000_0000
  {
    Pow2ThirtyOne();
    ShrSmall(x, 31);
    OrMulDisjoint(x, 1, 31, 0x8000_0000);
  }

  /** Doubling b + (upper << 8) leaves nothing in common with 0b1_0000_0001. */
  lemma RestBitSeven(b: nat, upper: nat)
    requires b < 0x80
    ensures Disjoint(2 * (b + 0x100 * upper), 257)
  {
    var rest := b + 0x100 * upper;
    assert rest == b + 0x80 * (2 * upper);
    Pow2Byte();
    ShrMulSum(b, 2 * upper, 7, 0x80);
    DisjointShifted(rest, 1, 7);
    ShlIsMul(1, 7);
    assert Disjoint(rest, 0x80);
    DisjointDoubled(rest, 0x80, 1);
  }

  /** Whatever the name, the hash fits the 64-bit BSAHash. */
  lemma HashBound(name: seq<Byte>)
    ensures BsaHash(name) < DoubleWord
  {
    var n := Normalized(name);
    var length := StemLength(n);
    StemWordBound(n);
    var low := SignExtend(StemWord(n));
    HashParts(n);
    if length < |n| {
      var flag := ExtFlag(n[length + 1..]);
      var high := HighWord(n, length);
      OrBelowDoubleWord(low, flag);
      OrBelowDoubleWord(BitOr(low, flag), high * Word);
    }
  }

  lemma StemWordBound(n: seq<Byte>)
    ensures StemWord(n) < Word
  {
    var length := StemLength(n);
    if length > 0 {
      var second := if length > 2 then SignedChar(n[length - 2]) else 0;
      PackBound(n[length - 1], second, length, n[0]);
    }
  }

  lemma PackBound(last: Byte, second: nat, length: nat, first: Byte)
    ensures Pack(last, second, length, first) < Word
  {
    var x := BitOr(last as nat, Truncate(second * 0x100));
    var y := BitOr(x, Truncate(length * 0x1_0000));
    OrBelowWord(last as nat, Truncate(second * 0x100));
    OrBelowWord(x, Truncate(length * 0x1_0000));
    OrBelowWord(y, Truncate(first as nat * 0x100_0000));
  }

  /** Exactly one flag, or none, is ORed in for an extension. */
  lemma ExtFlagCases(ext: seq<Byte>)
    ensures ExtFlag(ext) in {0, 0x80, 0x8000, 0x8080, 0x8000_0000}
    ensures ExtFlag(ext) != 0 <==>
      ext == [0x6B, 0x66] || ext == [0x6E, 0x69, 0x66] || ext == [0x64, 0x64, 0x73] || ext == [0x77, 0x61, 0x76]
  {
  }

  /** Only the last dot separates the stem from the extension. */
  lemma {:induction false} StemOfLastDot(stem: seq<Byte>, ext: seq<Byte>)
    requires Dot !in ext
    ensures StemLength(stem + [Dot] + ext) == |stem|
    decreases |ext|
  {
    var n := stem + [Dot] + ext;
    if ext != [] {
      assert n[|n| - 1] == ext[|ext| - 1];
      assert n[..|n| - 1] == stem + [Dot] + ext[..|ext| - 1];
      StemOfLastDot(stem, ext[..|ext| - 1]);
    } else {
      assert n[|n| - 1] == Dot;
    }
  }

  /** A name without a dot has no extension flag and no high word: the hash
      is the sign-extended stem word, below 2^31 for ASCII names. */
  lemma NoDotHash(name: seq<Byte>)
    requires Dot !in Normalized(name)
    ensures BsaHash(name) < Word || BsaHash(name) >= 0xFFFF_FFFF_0000_0000
    ensures Ascii(Normalized(name)) && 0 < |Normalized(name)| < 256 ==> BsaHash(name) < 0x8000_0000
  {
    var n := Normalized(name);
    var length := StemLength(n);
    assert length == |n|;
    StemWordBound(n);
    if length > 0 && Ascii(n) && length < 256 {
      HashLayout(name);
    }
  }
}
