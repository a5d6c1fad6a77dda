# BSA archive toolkit — a Dafny model

This project models the sequential core of the BSA archive library. BSA is
the container format of Bethesda's Oblivion and Fallout 3 / New Vegas /
Skyrim games. The model covers these parts:

- **Name hash** (`FileHash`). `calculateBSAHash` lower-cases the name and
  maps `\` to `/`. It splits the name at the last dot and packs the stem
  into the low 32 bits. It ORs in a flag for four known extensions. It puts
  a rolling `h * 0x1003f + b` hash of the stem interior and of the
  extension into the high 32 bits. The loops are methods proved equal to
  the recursive specification `BsaHash`. Lemmas state the properties the
  layout promises.
- **Byte codecs** (`BsaTypes`, `Bits`).
  - A `Stream` class holds a byte sequence, a cursor and whether the
    stream is still good. `readZString` uses `getline`, which leaves the
    stream not good when a name has no terminator; later names then read
    as empty strings.
  - `readType`/`writeType` are fixed-width little-endian codecs. The value
    is converted to the field width first.
  - B-strings carry a length prefix. Z-strings end with a NUL.
  - Writing into the middle of a stream is `Splice`.
- **File records** (`BsaFile`).
  - A file record is 16 bytes. Its size field carries the compression
    toggle in bit 30.
  - The model covers both `File` constructors, `writeHeader` and
    `readFileName`.
  - It covers `writeData`, which copies a stored payload in 128 KiB chunks
    or copies a loose file from disk.
- **Folder tree** (`BsaFolder`).
  - The tree is an arena: a `Tree` object whose `nodes` field is a sequence
    of folders. Folders refer to each other by index. The root is index 0,
    and every parent has a smaller index than its children.
  - Operations: `getFullPath`, and `addFolderInt`, which rebuilds the
    hierarchy from flat paths. Then the pre-order traversals
    (`collectFolders`, `collectFiles`, `collectFileNames`,
    `collectFolderNames`, `countFiles`), and the folder record and data
    block codecs (`readFolder`, `writeHeader`, `writeData`). Finally
    `writeFileData` and `resolveFileNames`.
- **Archive** (`BsaArchive`, `BsaLayout`).
  - The 36-byte header with its magic and type identifiers.
  - The flag predicates and the compression rule.
  - The extension bitmask `determineFileFlags`.
  - `Archive::read`, with its error mapping.
  - The two-pass `Archive::write`. Pass one writes the folder records,
    the data blocks, the file names and the payloads. Pass two seeks back
    to `0x24` and writes the folder records and data blocks again, now with
    the offsets that pass one learned.

The file system is a parameter.

- **Reading.** `Archive.Read` takes the archive's contents as
  `Option<seq<Byte>>`. `None` means the file could not be opened.
- **Writing.** `Archive.Write` takes a flag that says whether the output
  could be opened. Loose source files come from a `Disk` map from path to
  contents.

The top-level results tie the two sides together:

- `BsaArchive.WrittenHeaderReads`: what `write` stores reads back, through
  `readHeader`, as the header it meant to store.
- `BsaArchive.WrittenFolderReads`: every folder record of the written
  archive reads back, through `readFolder`, as the folder that was written.
  This includes its path, its data offset and its file records.

## Model

| member | source | states |
|---|---|---|
| BsaTypes.LimitBytes | src/bsatypes.h:34-43 | `BSAULong` holds 4 bytes and `BSAHash` 8, so each value range is 256 to the power of the width |
| BsaTypes.Convert | src/bsatypes.h:59-65 | converting a value to the field type yields a value below that type's limit |
| BsaTypes.ConvertFits | src/bsatypes.h:59-65 | a value already inside the field type's range is left unchanged by the conversion |
| BsaTypes.UCharWraps | src/bsatypes.cpp:51-53 | `writeType<unsigned char>(v)` stores the single byte v mod 256, so a B-string length of 256 wraps to 0 |
| BsaTypes.LittleEndianRoundTrip | src/bsatypes.h:48-68 | decoding the n-byte little-endian image of a value below 256^n gives back the value |
| BsaTypes.LittleEndianOfDecoded | src/bsatypes.h:48-68 | re-encoding decoded bytes at the same width gives back the same bytes |
| BsaTypes.TypeImage | src/bsatypes.h:59-68 | the image `writeType` emits has exactly `sizeof(T)` bytes |
| BsaTypes.TypeImageValue | src/bsatypes.h:59-68 | the image `writeType` emits decodes to the value converted to the field type |
| BsaTypes.BytesAt | src/bsatypes.h:54 | a read of n bytes succeeds exactly when n bytes remain, and it returns those bytes |
| BsaTypes.ParseType | src/bsatypes.h:48-56 | `readType` consumes exactly `sizeof(T)` bytes and yields a value inside the type's range |
| BsaTypes.ParseTypeImage | src/bsatypes.h:48-68 | `readType` over what `writeType(v)` emitted yields v converted to the type, and moves past the field |
| BsaTypes.CutAtNul | src/bsatypes.cpp:44-45 | the C-string view of a buffer is its longest NUL-free prefix, and it stops at the first NUL |
| BsaTypes.EncodeBString | src/bsatypes.cpp:49-54 | with n the smaller of 255 and the length of s, `writeBString` emits the length byte (n + 1) mod 256, then the first n + 1 bytes of s followed by NUL; for a string over 255 bytes those are 256 name bytes ending in s[255], with no terminator |
| BsaTypes.ParseBString | src/bsatypes.cpp:37-46 | `readBString` consumes the length byte L and exactly L more bytes, and returns a NUL-free string |
| BsaTypes.BStringRoundTrip | src/bsatypes.cpp:37-54 | reading a B-string back gives the NUL-free string of at most 254 bytes that was written, and ends right after it |
| BsaTypes.BStringOverflow | src/bsatypes.cpp:39-53 | for a string of 255 bytes or more the length byte wraps to 0, so reading gives `""` and consumes only that byte |
| BsaTypes.EncodeZString | src/bsatypes.cpp:66-69 | `writeZString` emits the string followed by a single NUL, one byte more than the string |
| BsaTypes.ZStringsLength | src/bsaarchive.cpp:173-181 | the name list as Z-strings is as long as the sum of the name lengths plus one per name |
| BsaTypes.ParseZString | src/bsatypes.cpp:57-63 | a successful `readZString` returns a NUL-free string shorter than `FILENAME_MAX`, whose Z-string image is exactly the bytes consumed |
| BsaTypes.GetLine | src/bsatypes.cpp:57-63 | `readZString` on a stream that is not good returns an empty string and does not move; on a good one it reads a terminated name and stays good, or stops at the end or after 259 characters, returns what it extracted and leaves the stream not good; the result is always NUL-free and shorter than `FILENAME_MAX` |
| BsaTypes.GetLineUnterminated | src/bsatypes.cpp:57-63 | a name with no terminator after its first 259 characters, or cut off by the end of the stream, reads as the characters up to where `getline` stops and leaves the stream not good |
| BsaTypes.ZStringRoundTrip | src/bsatypes.cpp:57-69 | reading a Z-string back gives the NUL-free string shorter than `FILENAME_MAX` that was written, and ends after its NUL |
| BsaTypes.SpliceParts | src/bsatypes.h:67 | a write at a position keeps the bytes before it, stores the new bytes, and keeps the bytes after it |
| BsaTypes.SpliceAppend | src/bsatypes.h:67 | two writes in a row equal one write of the concatenation |
| BsaTypes.Overwrite | src/bsaarchive.cpp:319-331 | rewriting a region with bytes of the same length changes that region and nothing else |
| BsaTypes.Stream.Seek | src/bsaarchive.cpp:319 | seeking sets the cursor |
| BsaTypes.Stream.Read | src/bsatypes.h:54 | reading n bytes returns the next n bytes and advances the cursor; it fails when fewer remain |
| BsaTypes.Stream.Write | src/bsatypes.h:67 | writing splices the bytes in at the cursor and advances it by their length |
| BsaTypes.Stream.ReadType | src/bsatypes.h:48-56 | `readType` yields what `ParseType` gives at the cursor and moves past the field |
| BsaTypes.Stream.WriteType | src/bsatypes.h:59-68 | `writeType` splices in the type's image and advances the cursor by `sizeof(T)` |
| BsaTypes.Stream.ReadBString | src/bsatypes.cpp:37-46 | `readBString` yields what `ParseBString` gives at the cursor and moves past it |
| BsaTypes.Stream.WriteBString | src/bsatypes.cpp:49-54 | `writeBString` splices in `EncodeBString(s)` |
| BsaTypes.Stream.ReadZString | src/bsatypes.cpp:57-63 | `readZString` returns the string `GetLine` gives at the cursor and moves the cursor and sets the stream state as it says |
| BsaTypes.Stream.WriteZString | src/bsatypes.cpp:66-69 | `writeZString` splices in the string and its NUL |
| FileHash.G | src/filehash.cpp:34-42 | the rolling hash is a 32-bit value |
| FileHash.GStep | src/filehash.cpp:37-40 | one more byte multiplies the hash by 0x1003f and adds the byte, mod 2^32 |
| FileHash.GenHashInt | src/filehash.cpp:34-42 | the loop computes G over the byte range, and 0 for an empty range |
| FileHash.NormalizeName | src/filehash.cpp:47-55 | the lower-casing loop fills the buffer with the normalised name (clipped at NUL or `FILENAME_MAX`) and a terminating NUL |
| FileHash.StrLen | src/filehash.cpp:61 | `strlen` finds the terminator |
| FileHash.StrRChrDot | src/filehash.cpp:59-62 | `strrchr` finds the last dot, or reports none |
| FileHash.CalculateBsaHash | src/filehash.cpp:45-96 | the method computes the specification hash `BsaHash` of the name |
| FileHash.HashBuffer | src/filehash.cpp:57-95 | packing the normalised buffer gives the specification hash of its contents |
| FileHash.AddExtensionFlag | src/filehash.cpp:76-85 | the extension chain ORs in exactly the flag of the extension |
| FileHash.EmptyNameHash | src/filehash.cpp:65-76 | the empty name hashes to 0 |
| FileHash.HashIgnoresCase | src/filehash.cpp:49-54 | upper-casing or lower-casing a name does not change its hash |
| FileHash.HashIgnoresSeparator | src/filehash.cpp:49-54 | replacing `/` by `\` does not change the hash |
| FileHash.HashIgnoresMapping | src/filehash.cpp:49-54 | any byte mapping that keeps NUL and agrees after normalisation leaves the hash unchanged |
| FileHash.HashOfPrefix | src/filehash.cpp:47-55 | the hash only sees the name up to its first NUL and at most `FILENAME_MAX` bytes |
| FileHash.HashLayout | src/filehash.cpp:65-92 | for an ASCII stem of length 0 < L < 256, the low word holds the last stem byte, the second-to-last when L > 2, then L, then the first byte; it adds the extension flag and puts the high word above |
| FileHash.HashBound | src/filehash.cpp:67-95 | the hash fits 64 bits |
| FileHash.ExtFlagCases | src/filehash.cpp:76-85 | the extension flag is 0x80, 0x8000, 0x8080 or 0x80000000 for `kf`, `nif`, `dds`, `wav`, and 0 for every other extension |
| FileHash.StemOfLastDot | src/filehash.cpp:59 | only the last dot separates stem and extension |
| FileHash.NoDotHash | src/filehash.cpp:59-62 | a name without a dot has no high word and no extension flag; for ASCII names it stays below 2^31 |
| BsaFile.SizeField | src/bsafile.cpp:81-84 | the stored size carries bit 30 exactly when the toggle is set or the size already had it |
| BsaFile.DecodeSize | src/bsafile.cpp:55-58 | decoding clears bit 30 and reports it as the toggle |
| BsaFile.SizeRoundTrip | src/bsafile.cpp:55-58 | for a size without bit 30, decoding the stored field gives back the size and the toggle |
| BsaFile.SizeFieldOfDecoded | src/bsafile.cpp:55-58 | re-encoding a decoded size field gives back the field |
| BsaFile.LargeSizeAbsorbed | src/bsafile.cpp:81-84 | a size that already has bit 30 reads back without it and as toggled |
| BsaFile.RecordImage | src/bsafile.cpp:78-87 | `writeHeader` emits a 16-byte record |
| BsaFile.ParseRecord | src/bsafile.cpp:52-54 | the record reads succeed exactly when 16 bytes remain |
| BsaFile.Decoded | src/bsafile.cpp:49-59 | the decoded entry keeps hash and offset, has the toggle iff bit 30 was set, has a size without bit 30, and is a stored (not new) entry |
| BsaFile.FileAt | src/bsafile.cpp:49-59 | a record decodes exactly when 16 bytes remain |
| BsaFile.RecordRoundTrip | src/bsafile.cpp:49-87 | reading a written record gives back hash, size and toggle, and the written data offset as offset |
| BsaFile.ReadRecord | src/bsafile.cpp:49-59 | the stream constructor yields `FileAt` at the cursor and moves past the record |
| BsaFile.WriteHeader | src/bsafile.cpp:78-87 | `writeHeader` splices in the record image |
| BsaFile.Loose | src/bsafile.cpp:62-69 | the loose-file constructor hashes the name, marks the entry new, and stores source file, folder and toggle |
| BsaFile.ByOffsetOrder | src/bsafile.cpp:40-43 | `ByOffset` is a strict weak order on data offsets |
| BsaFile.SetFileSize | src/bsafile.h:100 | `setFileSize` changes the size and nothing else |
| BsaFile.WholeChunks | src/bsafile.cpp:104-110 | the whole chunks of a read fall at most one chunk short of the available bytes |
| BsaFile.CopiedLength | src/bsafile.cpp:104-110 | the chunk loop copies the whole size when it is available, and otherwise stops within one chunk of the end |
| BsaFile.DeliveredStep | src/bsafile.cpp:105-110 | copying n then k bytes delivers the two slices back to back |
| BsaFile.CopyChunk | src/bsafile.cpp:106-109 | one chunk copy succeeds exactly when the source holds the chunk, and it appends those bytes to the target |
| BsaFile.CopyChunks | src/bsafile.cpp:101-110 | the chunk loop succeeds iff the size is available, and it writes exactly the delivered bytes |
| BsaFile.Payload | src/bsafile.cpp:98-131 | a stored entry delivers at most its size; a loose file delivers its whole contents, truncated to 32 bits, or nothing when missing |
| BsaFile.WrittenEntry | src/bsafile.cpp:90-134 | `writeData` changes only the written data offset (the target position) and, for a loose file, the size |
| BsaFile.WriteError | src/bsafile.cpp:111-119 | `ERROR_SOURCEFILEMISSING` exactly when a loose file is missing; `ERROR_INVALIDDATA` exactly when a stored payload is cut short |
| BsaFile.WriteData | src/bsafile.cpp:90-134 | `writeData` records the target position, copies the payload, and returns the error code |
| BsaFile.ResolvedName | src/bsafile.cpp:137-146 | `readFileName` assigns whatever `readZString` returns, also after a failed read, and changes nothing else; it never throws without `testHashes`, and with it throws exactly when the name's hash differs |
| BsaFile.ResolveWrittenName | src/bsafile.cpp:137-146 | reading a written name back restores the entry and ends after the name |
| BsaFile.ReadFileName | src/bsafile.cpp:137-146 | `readFileName` yields `ResolvedName` at the cursor and stream state |
| BsaFolder.Blank | src/bsafolder.cpp:33-39 | a new folder has no parent, an empty name with its hash, no children, no files, and offset `ULONG_MAX` |
| BsaFolder.FilePath | src/bsafile.cpp:72-75 | a file's path is its folder's full path, a backslash, then its name |
| BsaFolder.FilePathGrown | src/bsafile.cpp:72-75 | adding folders does not change the path of a file of an existing folder |
| BsaFolder.CountFilesTotal | src/bsafolder.cpp:181-229 | `countFiles` equals the length of `collectFiles`, mod 2^32 |
| BsaFolder.FoldersBelowHoldFiles | src/bsafolder.cpp:207-216 | every folder `collectFolders` lists holds files and has a larger handle than the folder it starts from |
| BsaFolder.FoldersBelowExactly | src/bsafolder.cpp:207-216 | a folder is listed by `collectFolders` from i if and only if it is a strict descendant of i (`Under`) holding at least one file |
| BsaFolder.FolderNamesArePaths | src/bsafolder.cpp:244-253 | `collectFolderNames` is the own path if the folder holds files, then the full paths of what `collectFolders` gives |
| BsaFolder.FileNames | src/bsafolder.cpp:232-242 | the name list has one entry per file, and entry k is file k's name |
| BsaFolder.PathsAppend | src/bsaarchive.cpp:277-281 | the paths of concatenated folder lists are the concatenated paths |
| BsaFolder.Backslashed | src/bsafolder.cpp:137-147 | mapping `/` to `\` changes exactly the slashes |
| BsaFolder.FirstMatch | src/bsafolder.cpp:119-134 | `addFolderInt` descends into the first sibling whose name is a proper prefix followed by a separator |
| BsaFolder.FirstMatchUnique | src/bsafolder.cpp:119-134 | that first match is unique |
| BsaFolder.FirstSeparator | src/bsafolder.cpp:137 | `find_first_of("\\/")` finds the first separator, or reports none |
| BsaFolder.GrownPath | src/bsafolder.cpp:101-114 | adding folders never changes the full path of an existing folder |
| BsaFolder.Child | src/bsafolder.cpp:197-204 | `addFolder(name)` creates a blank folder with that name and the given parent |
| BsaFolder.PlacedBelow | src/bsafolder.cpp:125-132 | descending into a matching sibling with the prefix stripped places the folder correctly |
| BsaFolder.PlacedLeaf | src/bsafolder.cpp:138-141 | a separator-free name is appended as a new child, even when a same-named sibling exists |
| BsaFolder.PlacedDummy | src/bsafolder.cpp:142-150 | otherwise an intermediate folder named by the first component is created, and the rest is inserted below it |
| BsaFolder.FolderRecord | src/bsafolder.cpp:68-73 | a folder record has 16 bytes |
| BsaFolder.FolderRecordParses | src/bsafolder.cpp:68-73 | a folder record reads back as hash, file count mod 2^32 and written offset |
| BsaFolder.Records | src/bsafolder.cpp:80-83 | the file records of a block are 16 bytes each |
| BsaFolder.RecordsAt | src/bsafolder.cpp:54-56 | n file records decode exactly when 16n bytes remain, and there are n of them |
| BsaFolder.RecordsRoundTrip | src/bsafolder.cpp:54-83 | the written file records read back as the files written |
| BsaFolder.DataBlock | src/bsafolder.cpp:76-84 | a data block is the B-string path followed by one record per file |
| BsaFolder.FolderAt | src/bsafolder.cpp:42-65 | a decoded folder has no parent, no children and a file count equal to its file list |
| BsaFolder.OffsetRoundTrip | src/bsafolder.cpp:51-78 | subtracting the name length from the stored offset, mod 2^32, gives back the block position |
| BsaFolder.StoredFolderRoundTrip | src/bsafolder.cpp:42-84 | a written folder record and data block read back as the folder, its path and its files, ending after the block |
| BsaFolder.Raised | src/bsafolder.cpp:58-60 | the end position is raised to the block end when that is larger |
| BsaFolder.ReadFolder | src/bsafolder.cpp:42-65 | `readFolder` yields `FolderAt`, raises the end position, and returns the cursor to just after the record |
| BsaFolder.ReadRecords | src/bsafolder.cpp:54-56 | the file loop yields `RecordsAt` at the cursor |
| BsaFolder.FileRun | src/bsafolder.cpp:87-98 | the payload run keeps one entry per file |
| BsaFolder.FileRunStatus | src/bsafolder.cpp:87-98 | `writeFileData` succeeds iff every file's `writeData` does; otherwise it returns one of their errors |
| BsaFolder.ResolveRun | src/bsafolder.cpp:162-174 | one entry per file, the position only moves forward, and nothing fails without `testHashes`; once the stream is not good every later name is empty and the position stays |
| BsaFolder.ResolveRunSucceeds | src/bsafolder.cpp:162-174 | `resolveFileNames` is true iff hashes are not tested or every name read hashes to its entry's hash; the stream stays good iff it was and every name is terminated |
| BsaFolder.ResolveRunStalled | src/bsafolder.cpp:162-174 | once the stream is not good, every later file gets an empty name, the position stays and the stream stays not good |
| BsaFolder.ResolveStoredNames | src/bsafolder.cpp:162-174 | the names written for a folder resolve back onto its files, in order, ending after the last name |
| BsaFolder.Retouch | src/bsafolder.cpp:78 | updating a folder's offset or files keeps the tree well formed |
| BsaFolder.RetouchPath | src/bsafolder.cpp:101-114 | and keeps every full path |
| BsaFolder.Tree.constructor | src/bsafolder.cpp:33-39 | a new tree is a lone blank root |
| BsaFolder.Tree.NumFiles | src/bsafolder.h:66 | `getNumFiles` is the file count, as an unsigned int |
| BsaFolder.Tree.NumSubFolders | src/bsafolder.h:56 | `getNumSubFolders` is the subfolder count, as an unsigned int |
| BsaFolder.Tree.SubFolder | src/bsafolder.cpp:176-179 | `getSubFolder` yields child `index`, and fails (`out_of_range`) for an invalid index |
| BsaFolder.Tree.FileOf | src/bsafolder.cpp:191-194 | `getFile` yields file `index`, and fails for an invalid index |
| BsaFolder.Tree.AddFile | src/bsafolder.h:81 | `addFile` appends the file unchanged to the folder's list and changes nothing else |
| BsaFolder.Tree.AddFolder | src/bsafolder.cpp:197-204 | `addFolder(name)` appends a new child whose path is the parent path joined with the name; it is not among the folders `write` stores |
| BsaFolder.Tree.AddFolderInt | src/bsafolder.cpp:117-151 | `addFolderInt` places the folder where the recursive first-match rule says, keeping the tree well formed |
| BsaFolder.Tree.FindSubFolder | src/bsafolder.cpp:119-134 | the scan finds the first matching sibling |
| BsaFolder.Tree.AddFolderHere | src/bsafolder.cpp:137-150 | without a match, it appends a leaf or an intermediate folder as the code does |
| BsaFolder.Tree.CollectFiles | src/bsafolder.cpp:219-229 | `collectFiles` appends the own files, then each subfolder's, in pre-order |
| BsaFolder.Tree.CollectFileNames | src/bsafolder.cpp:232-242 | `collectFileNames` appends the names of those files |
| BsaFolder.Tree.CollectFolders | src/bsafolder.cpp:207-216 | `collectFolders` appends `FoldersBelow`, the pre-order list that `FoldersBelowExactly` shows to be exactly the strict descendants holding files |
| BsaFolder.Tree.CollectFolderNames | src/bsafolder.cpp:244-253 | `collectFolderNames` appends the paths of the folders holding files, the folder itself first |
| BsaFolder.Tree.WriteHeader | src/bsafolder.cpp:68-73 | `writeHeader` splices in the folder record |
| BsaFolder.Tree.WriteData | src/bsafolder.cpp:76-84 | `writeData` sets the written offset to position plus name length, and splices in the data block |
| BsaFolder.Tree.WriteFileData | src/bsafolder.cpp:87-98 | `writeFileData` writes payloads file by file, stops at the first error, and updates the entries |
| BsaFolder.Tree.ResolveFileNames | src/bsafolder.cpp:162-174 | `resolveFileNames` reads every name, even after a failure, and updates the folder's files, the cursor and the stream state and reports the outcome as `ResolveRun` says |
| BsaFolder.Tree.AddStoredFolder | src/bsafolder.cpp:154-159 | `addFolder(file, ...)` reads a folder record, places the folder by its path, and makes it own its files |
| BsaFolder.WriteRecords | src/bsafolder.cpp:80-83 | the record loop splices in all file records |
| BsaFolder.WriteFiles | src/bsafolder.cpp:90-96 | the payload loop matches `FileRun` |
| BsaFolder.ResolveNames | src/bsafolder.cpp:165-172 | the name loop matches `ResolveRun` |
| BsaLayout.WriteFolderRecords | src/bsaarchive.cpp:297-300 | the first record loop splices in the records of all written folders |
| BsaLayout.WriteBlocks | src/bsaarchive.cpp:302-305 | the data-block loop splices in all blocks and stamps each folder's offset |
| BsaLayout.StampPoints | src/bsaarchive.cpp:302-305 | each written folder's offset is the position of its block plus the name length |
| BsaLayout.Restamp | src/bsaarchive.cpp:328-331 | pass two stamps the same offsets as pass one, because the blocks keep their length |
| BsaLayout.WritePayloads | src/bsaarchive.cpp:314-317 | the payload loop delivers every folder's payloads and updates their entries |
| BsaLayout.GatherNames | src/bsaarchive.cpp:277-287 | the gathering loop lists the folder paths and file names, and both length totals without terminators |
| BsaLayout.AppendNames | src/bsaarchive.cpp:282-286 | the inner loop appends one folder's file names and keeps the total |
| BsaLayout.WriteNames | src/bsaarchive.cpp:308-311 | the name loop splices in all names as Z-strings |
| BsaLayout.WriteFirstPass | src/bsaarchive.cpp:290-317 | pass one appends records, blocks, names and payloads |
| BsaLayout.WriteSecondPass | src/bsaarchive.cpp:319-331 | pass two overwrites exactly the records and blocks, leaving names and payloads in place |
| BsaLayout.SecondPassReady | src/bsaarchive.cpp:297-331 | after pass one the second pass rewrites regions of the same length, with the final offsets |
| BsaLayout.WritePasses | src/bsaarchive.cpp:297-331 | both passes together produce the specified layout |
| BsaLayout.LaidOutFolderReads | src/bsafolder.cpp:42-84 | in the final layout each folder record reads back as its folder |
| BsaLayout.PassesFolderReads | src/bsaarchive.cpp:297-331 | the same holds for what the passes produce |
| BsaLayout.CollectedNames | src/bsafolder.cpp:207-242 | the names `collectFileNames` gives are the own files' names, then those of the folders `collectFolders` gives |
| BsaArchive.DefaultCompressed | src/bsaarchive.h:186 | `defaultCompressed` holds iff flag 0x4 is set |
| BsaArchive.NamePrefixed | src/bsaarchive.h:187-188 | `namePrefixed` holds iff the type is not Oblivion and flag 0x100 is set |
| BsaArchive.Compressed | src/bsaarchive.cpp:640-644 | a file is compressed iff the default differs from its toggle |
| BsaArchive.CreateFile | src/bsaarchive.cpp:646-651 | `createFile` gives a new entry in no folder, hashes its name, and is compressed exactly as asked |
| BsaArchive.TypeFromId | src/bsaarchive.cpp:61-68 | only 0x67 and 0x68 are accepted as type identifiers |
| BsaArchive.TypeToId | src/bsaarchive.cpp:71-78 | `typeFromID` undoes `typeToID` |
| BsaArchive.TypeIdRoundTrip | src/bsaarchive.cpp:61-78 | `typeToID` undoes `typeFromID` on accepted identifiers |
| BsaArchive.HeaderImage | src/bsaarchive.cpp:246-258 | the header image has 36 bytes |
| BsaArchive.ParseHeader | src/bsaarchive.cpp:81-101 | `readHeader` rejects anything without the `BSA\0` magic, and succeeds iff 36 bytes are there and the type is known |
| BsaArchive.HeaderRoundTrip | src/bsaarchive.cpp:81-258 | `readHeader` on a written header gives back every field |
| BsaArchive.ReadHeader | src/bsaarchive.cpp:81-101 | the method reads the fields in order and yields `ParseHeader` |
| BsaArchive.EndsWithIgnoresCase | src/bsaarchive.cpp:187-194 | `endsWith` compares case-insensitively |
| BsaArchive.OneExtension | src/bsaarchive.cpp:197-243 | no name ends with two of the nine extensions |
| BsaArchive.DetermineFileFlags | src/bsaarchive.cpp:197-243 | bit k is set iff some name ends with extension k; no other bit is set |
| BsaArchive.FirstNewExtension | src/bsaarchive.cpp:213-240 | the scan finds an extension not yet marked that the name ends with, or reports that there is none |
| BsaArchive.MarkName | src/bsaarchive.cpp:211-241 | one loop turn keeps flags and result in step with the names seen |
| BsaArchive.CountCharacters | src/bsaarchive.cpp:173-181 | `countCharacters` counts each name plus its terminator, mod 2^32 |
| BsaArchive.StoredFoldersNext | src/bsaarchive.cpp:125-127 | reading folder i+1 extends the list and raises the end position |
| BsaArchive.ReadFolders | src/bsaarchive.cpp:125-127 | the folder loop succeeds iff every record reads, and places each folder |
| BsaArchive.ResolveAll | src/bsaarchive.cpp:129-138 | the name loop reads every folder's names in order on one stream, whose state carries over from folder to folder, and reports what `ResolveFolders` says |
| BsaArchive.ResolveFolders | src/bsaarchive.cpp:131-138 | the names of all folders read in turn; the position only moves forward and, without `testHashes`, every folder resolves |
| BsaArchive.ReadOutcome | src/bsaarchive.cpp:104-142 | `read` returns `INVALIDHASHES` only when hashes are tested |
| BsaArchive.BodyOutcome | src/bsaarchive.cpp:122-138 | after the header `read` ends with `INVALIDDATA` exactly when a folder record or data block cannot be read, otherwise with `NONE` or, only when hashes are tested, `INVALIDHASHES` |
| BsaArchive.ReadBody | src/bsaarchive.cpp:122-138 | the body of `read` after the header reads and places the folders, seeks to the end of the data blocks, resolves the names and yields `BodyOutcome`, only growing the tree |
| BsaArchive.WrittenHeader | src/bsaarchive.cpp:246-291 | the header `write` stores has offset 0x24, the folder count, and the file-name total |
| BsaArchive.WrittenParts | src/bsaarchive.cpp:270-331 | what `write` stores is the header followed by both passes, with its fields as the code computes them |
| BsaArchive.WrittenHeaderReads | src/bsaarchive.cpp:261-334 | the written archive's header reads back as written |
| BsaArchive.WrittenFolderReads | src/bsaarchive.cpp:261-334 | each written folder record reads back as the folder, its path and its files, with its offset |
| BsaArchive.RootFilesCounted | src/bsafolder.cpp:207-216 | the header's file count includes the root's own files, which `write` never stores |
| BsaArchive.Archive.constructor | src/bsaarchive.cpp:45-50 | a new archive has an empty root, type Skyrim, and the two name flags |
| BsaArchive.Archive.SetType | src/bsaarchive.h:102-106 | `getType` after `setType(t)` is `t` |
| BsaArchive.Archive.Read | src/bsaarchive.cpp:104-142 | `read` returns `FILENOTFOUND`, `INVALIDDATA`, `INVALIDHASHES` or `NONE` as `ReadOutcome` says; it sets type and flags from a good header and only grows the tree |
| BsaArchive.Archive.WriteHeader | src/bsaarchive.cpp:246-258 | `writeHeader` splices in the header with `countFiles()` as the file count |
| BsaArchive.Archive.Write | src/bsaarchive.cpp:261-339 | `write` returns `ACCESSFAILED` without output when it cannot open; otherwise `NONE`, whatever the payload errors, and what it stores is `Written` |
| BsaArchive.Archive.WriteOpened | src/bsaarchive.cpp:270-334 | the body of `write` produces `Written` and the updated tree |

## Left out

- The extraction pipeline is left out: threads, the semaphore, `readFiles`, `extractFiles`, `extractAll`, `extract`, `extractDirect`, `extractCompressed` and `createFolders` (src/bsaarchive.cpp:346-637). Its point is concurrency and OS I/O.
- `decompress` is left out. It calls zlib.
- Opening files is a parameter. `Archive.Read` takes the contents or `None`. `Archive.Write` takes a flag saying whether the output opens. Loose files come from the `Disk` map. Stream failures on the output side are not modelled, so the `ERROR_INVALIDDATA` branch of `write` (src/bsaarchive.cpp:335-337) is never taken.
- `Archive::close`, and the `Archive::countFiles`, `collectFolderNames` and `collectFileNames` wrappers (src/bsaarchive.cpp:145-170), are left out. They only forward to the root folder, and those root-folder operations are modelled.
- The model uses a 32-bit `unsigned long`, as on Windows. On LP64 systems `readFolder` would read 8-byte fields.
- The exception texts built with `makeString` are left out. The hash-mismatch exception of `readFileName` is a boolean. The `data_invalid_exception` of `readHeader` is the `Threw` outcome of `Archive.Read`, because `read` does not catch it.
- Short reads of fixed-size fields and payload chunks are modelled as failures. The source sets badbit-only exceptions, so such a read only sets failbit and the code goes on with stale buffer contents. Reading file names with `getline` is modelled as the source does it, stream state included (`BsaTypes.GetLine`); the later seeks and reads of `write` do not consult that state (see the lines below).
- `BsaArchive.Archive.Read`: an archive cut short in its header, folder records or data blocks yields `INVALIDDATA`. The source reads on from stale buffers there. An archive cut short inside its file names is read as the source reads it.
- `BsaFile.CopyChunk`: a chunk the source archive cannot fill is a failure. The source writes the whole chunk from a stale buffer.
- `BsaFile.CopiedLength`: on a short source the copy stops after the last whole chunk. The source writes the full size.
- `BsaFile.CopyChunks`: a short copy stops after the last whole chunk and reports `INVALIDDATA`. The source returns `NONE`.
- `BsaFile.Payload`: a stored entry delivers at most the bytes the source archive holds. The source always writes `m_FileSize` bytes.
- `BsaTypes.Stream.Seek`: moves the cursor whatever the stream state. `seekg` on a stream whose failbit is set does nothing.
- `BsaTypes.Stream.Read`: reads the bytes at the cursor whatever the stream state. `read` on a failed stream extracts nothing.
- `BsaFile.WriteData`: a stored payload is copied from the archive bytes even when the archive stream is no longer good. That happens after `read` met a file name with no NUL in its first 260 bytes, or one cut off by the end of the file that another name read follows, or of which no byte was there. The source then seeks and reads nothing (src/bsafile.cpp:100-110), writes `m_FileSize` bytes of an uninitialised buffer and returns `NONE`. Those bytes are indeterminate, so no model can give them. A last name cut off after at least one byte sets only eofbit. `seekg` clears it, so there the source copies the payload as the model does.
- `BsaArchive.Archive.Write`: `Written` copies the stored payloads from the archive bytes and ignores the state `Read` left the archive stream in (src/bsaarchive.cpp:104-142 never resets it). On a stream left failed the source writes indeterminate payload bytes and returns `NONE`, as under `BsaFile.WriteData`.
- `BsaArchive.Archive.WriteOpened`: the same gap as `BsaArchive.Archive.Write`; the payloads come from the archive bytes whatever the stream state.
- `BsaFile.WriteError`: `INVALIDDATA` for a stored payload cut short, where the source returns `NONE`.
- `BsaFile.WriteError`: a loose file that exists always copies in full; a read error inside it is not modelled.
- `BsaFile.Loose`: `m_FileSize`, `m_DataOffset` and `m_DataOffsetWrite` are never initialised by this constructor (src/bsafile.cpp:62-69). The model sets them to 0. Where the second pass writes the record of a missing loose file, or of a file after `writeFileData` stopped early, the source writes indeterminate values and the model writes zeros.
- `BsaFile.Decoded`: `m_DataOffsetWrite` and `m_ToggleCompressedWrite` are never initialised by the reading constructor (src/bsafile.cpp:49-59). The model sets them to 0 and false.
- `BsaFolder.Blank`: `m_OffsetWrite` is never initialised by `Folder::Folder()` or `readFolder` (src/bsafolder.cpp:33-65); only `writeData` sets it (src/bsafolder.cpp:78). The model sets it to 0, here and in `BsaFolder.FolderAt`. The first pass of `write` therefore stores 0 in the offset of each folder not written before, where the source stores indeterminate bytes (src/bsaarchive.cpp:297-300). The second pass overwrites those records, so `Written` is unaffected.
- Non-ASCII bytes in the hash: `tolower` is taken as the C locale (identity above 0x7F). Signed `char` promotion is sign extension, as on MSVC.
- `FILENAME_MAX` is 260, the Windows value.
- `resolveFileNames` is modelled with the `testHashes` argument it is declared and called with (src/bsafolder.h, src/bsaarchive.cpp:134). Its definition at src/bsafolder.cpp:162 takes one argument.
- `BsaArchive.WrittenFolderReads` needs these conditions:
  - the written archive stays below 4 GiB;
  - the folder has fewer than 2^32 files;
  - no file size uses bit 30;
  - the folder path is at most 254 bytes and holds no NUL.

  Outside these the source itself does not read back what it wrote: offsets wrap, sizes lose bit 30, and B-strings overflow.
- `BsaTypes.BStringRoundTrip` requires `|s| <= 254`, because longer strings do not round-trip (see `BsaTypes.BStringOverflow`).
- `BsaTypes.ZStringRoundTrip` requires a string shorter than `FILENAME_MAX`, the buffer `readZString` reads into.
- `FileHash.HashLayout` is stated for ASCII stems of length below 256. Beyond that the shifted fields overlap. The general value is `BsaHash`, which `FileHash.CalculateBsaHash` is proved to compute.
- `addFolderInt` appends a separator-free name as a new child even when a sibling has the same name (src/bsafolder.cpp:117-147). The model does the same (`BsaFolder.PlacedLeaf`).
- Files attached to the root folder are counted in the header's file count but never written (`BsaArchive.RootFilesCounted`). This is modelled as the code does it.
- `ByOffset` is used only for sorting during extraction, which is left out. Only its ordering properties are stated.
