# destream, modelled in Dafny

destream takes a byte stream (a named file or an open file object) and
strips its compression and container layers one after another. At each
round, the guesser:

1. sniffs the MIME type of the current archive;
2. tries the registered decompressor classes in priority order;
3. stacks the first class that accepts, which becomes the new current archive.

It stops when no class accepts, or raises after a fixed number of rounds.

- **Filters** (gzip, bzip2, lzma, xz, zstd) pipe the stream through an external tool.
- **Packs** (tar, zip, rar, 7z) list their members. A pack with exactly one
  member stands for that member, renamed and tagged `<tag>:<member>`. A pack
  with several members stands for the whole archive.

The model follows the program's own structure:

| module | file | models |
|---|---|---|
| `Errors`, `Text`, `Numerals`, `Listing` | errors, text, numerals, listing | Python exceptions as values, the string operations the code relies on, `int()`/`unhexlify`/`struct.unpack` as used for sizes and CRCs, and the `key: value` / `key = value` line parsing shared by the rar and 7z listings |
| `Streams` | streams | a file object: bytes, cursor, seekable and closed flags |
| `ArchiveCore` | archive | `Archive`: class declarations, the chain of decompressors and compressions, `_guess`, `close`, and the single-member presentation of packs |
| `Helpers` | helpers | `ArchiveFile`, `ArchiveTemp`, `make_seekable`, and `ExternalPipe`'s availability check and error outcomes |
| `Gzip`, `Bzip2`, `Lzma`, `Xz`, `Zstd` | gzip … zstd | the filter classes' declarations and name guesses |
| `Tar`, `Zip`, `Rar`, `P7zip` | tar, zip, rar, p7zip | the pack classes: construction, member listings, the external tools' listing formats and command lines |
| `Registry` | registry | `builtin_decompressors` |
| `Classes` | classes | the declarations of the decompressor classes, looked up by class |
| `Stacking` | stacking | the loop of `Guesser.open` over any guess step, and what it guarantees |
| `Guessing` | guesser | `Guesser.guess`, `Guesser.open`, the module-level `open`, each class's construction as the guesser sees it, and worked cases |

Stateful objects are Dafny classes:

- `Streams.Stream`, `ArchiveCore.Archive`, `Helpers.PipeClass`, `Tar.Untar`,
  `Zip.Unzip`, `Rar.Unrar` and `P7zip.Un7z`.
- Their constructors and `close` update fields in place.

The guesser reasons about the values an archive records: its class, display
name, decompressor chain, compression tags and seekability (`ArchiveCore.Layer`).

Whatever the program asks of the outside world becomes a parameter. A
`Guessing.Env` bundles these as functions of the archive in question:

- the libmagic MIME guess;
- `find_executable`;
- the output, exit status and piped bytes of the external tools;
- the member lists the tar and zip libraries report.

## Model

| member | source | states |
|---|---|---|
| ArchiveCore.DeriveExtends | destream/archive.py:37-44 | a derived archive's decompressor chain is its source's chain plus its own class, and its compressions are the source's plus at most its own tag, with the source's entries unchanged |
| ArchiveCore.SplitExtension | destream/archive.py:11 | the split `RE_EXTENSION` performs on names without a newline: stem + "." + extension gives back the name, the extension is non-empty and holds no dot, and no extension means no dot or only a final one |
| ArchiveCore.RegexSplitAgrees | destream/archive.py:57 | on a name without a newline, the regular-expression search gives the last-dot split |
| ArchiveCore.RegexSplitFailsOnNewline | destream/archive.py:57 | on "a\nb" the search finds no match (`$` cannot skip a non-final newline) |
| ArchiveCore.StripExtension | destream/archive.py:56-61 | the name is kept, or loses exactly a final ".ext" whose ext is declared |
| ArchiveCore.BaseGuess | destream/archive.py:50-66 | the corrected `_guess`, which splits every name as the search does on names without a newline: it fails with ValueError exactly when a unique class is already in the chain or the MIME is not declared; otherwise the name is kept, or stripped of a declared extension |
| ArchiveCore.GuessAgreesWithoutNewline | destream/archive.py:50-66 | the code as written and the corrected guess agree on every name without a newline |
| ArchiveCore.NewlineNameRaises | destream/archive.py:56-61 | as written, any class declaring both MIME types and extensions raises AttributeError on "a\nb", whatever the MIME |
| ArchiveCore.GuessStripsDeclaredExtension | destream/archive.py:56-62 | with an accepted MIME, "stem.ext" guesses "stem" when ext is declared |
| ArchiveCore.GuessKeepsUndeclaredExtension | destream/archive.py:56-62 | with an accepted MIME, "stem.ext" is kept whole when ext is not declared |
| ArchiveCore.SplitAtLastDot | destream/archive.py:11 | "stem.ext" with a dot-free ext splits into stem and ext |
| ArchiveCore.Collapse | destream/decompressors/tar.py:71-82 | a pack is single exactly when it has one member; a single pack is tagged "<tag>:<member>" and, when it renames, is named after the member; otherwise it keeps the name and the bare tag |
| ArchiveCore.CollapsedTagNamesMember | destream/decompressors/tar.py:78 | the member's name can be read back from a collapsed tag after its first ':' |
| ArchiveCore.Archive.constructor | destream/archive.py:18-44 | a falsy file object becomes an empty in-memory stream; the display name is the name or ""; the record continues the source's chain |
| ArchiveCore.Archive.New | destream/archive.py:19-20 | constructing the base class itself fails with AssertionError, and every other class constructs |
| ArchiveCore.Archive.Close | destream/archive.py:68-70 | the underlying stream ends closed exactly when it was already closed or `closefd` holds; the cursor is unchanged |
| Streams.Stream.ReadAll | destream/helpers.py:48 | reading to the end returns the bytes from the cursor on and leaves the cursor at the end |
| Streams.Stream.Seek | destream/helpers.py:49 | seeking sets the cursor |
| Helpers.ArchiveFileName | destream/helpers.py:28-29 | an explicit truthy name wins; otherwise the file object's name is used |
| Helpers.NewArchiveFile | destream/helpers.py:23-30 | no file object and no name gives TypeError; a name that is not an existing file gives OSError(2); otherwise an archive of class ArchiveFile over that file or object, whose source is the file object |
| Helpers.Dirname | destream/helpers.py:43 | `os.path.dirname` is a prefix of the path, empty without a slash |
| Helpers.DirnameOfJoin | destream/helpers.py:43 | the directory of "dir/base" is dir |
| Helpers.TempDir | destream/helpers.py:42-47 | the temporary file goes in the name's directory when that directory can be used, else in the default place |
| Helpers.TempName | destream/helpers.py:38-41 | an archive source lends its display name unless a name is given; any other source must have a name attribute |
| Helpers.NewArchiveTemp | destream/helpers.py:37-54 | the temporary copy holds the bytes the source had left, rewound to position 0, and the source is drained |
| Helpers.MakeSeekable | destream/helpers.py:57-70 | a seekable object is returned as is; an unseekable one is replaced by a seekable temporary copy of its remaining bytes |
| Helpers.PipeAssertions | destream/helpers.py:110-113 | the base pipe class or a class without a command fails with AssertionError |
| Helpers.Candidates | destream/helpers.py:114-116 | the candidates are the command's program followed by the fallbacks |
| Helpers.ExistingFirst | destream/helpers.py:117-118 | no candidate is found exactly when none exists; otherwise the first existing one comes first |
| Helpers.MissingMessage | destream/helpers.py:118-123 | the error message names the candidates only when there are fallbacks |
| Helpers.PipeClass.CheckAvailability | destream/helpers.py:108-124 | the assertions, then OSError(2) when no candidate exists, else the class's program is rewritten to the first existing candidate |
| Helpers.CheckExit | destream/decompressors/rar.py:139-142 | a tool's non-zero exit status raises CalledProcessError carrying it |
| Helpers.FeederOutcome | destream/helpers.py:80-90 | the feeder thread ends quietly on success or a broken pipe, and re-raises any other IOError, one whose errno is None included, with that errno |
| Helpers.TerminateOutcome | destream/helpers.py:130-139 | terminating a process that already exited is not an error; any other OSError, one whose errno is None included, is raised with that errno |
| Listing.NormalizeKey | destream/decompressors/rar.py:20 | a key is lowered and every non-word character becomes '_'; the result has only word characters |
| Listing.NormalizeIdempotent | destream/decompressors/rar.py:20 | normalising a key twice is normalising it once |
| Listing.ParseLineMatches | destream/decompressors/rar.py:17-19 | a line yields a pair exactly when the separator occurs after its first character (on " :v" the lazy key backtracks onto the blank) |
| Listing.ParseLineRoundTrip | destream/decompressors/rar.py:17-21 | a line written as key, blanks, separator, blanks, value parses back to that key and value |
| Listing.LastWins | destream/decompressors/rar.py:21 | a key is in the dictionary exactly when some line gives it, and the last such line's value wins |
| Listing.SingleLineInfo | destream/decompressors/p7zip.py:16-23 | a one-line hunk yields the one normalised pair |
| Listing.InfoAfterNewline | destream/decompressors/p7zip.py:16-23 | a leading empty line does not change a hunk's dictionary |
| Listing.ParseHunk | destream/decompressors/p7zip.py:16-23 | the loop over the hunk's lines builds the dictionary `Info` describes |
| Numerals.ParseDecimal | destream/decompressors/rar.py:38 | `int()` reads back the decimal form of every natural number |
| Numerals.SeparatorsStripped | destream/decompressors/rar.py:38 | `int()` strips the ASCII separators \x1c to \x1f as whitespace: "\x1c5\x1f" reads as 5 |
| Numerals.Unhexlify | destream/decompressors/rar.py:42 | a successful decoding gives one byte per two hex digits; failures are ValueError |
| Numerals.FoldBound | destream/decompressors/rar.py:41 | folding n bytes big-endian stays below 256^n |
| Numerals.Crc32FromHex | destream/decompressors/rar.py:41-42 | a decoded CRC came from 8 hex digits and fits in 32 bits; bad hex is ValueError and a wrong length is struct.error |
| Numerals.CrcRoundTrip | destream/decompressors/rar.py:41-42 | every 32-bit value written as 8 hex digits decodes back to itself |
| Gzip.Guess | destream/decompressors/gzip.py:16-34 | fails with ValueError exactly when the MIME is not a gzip type; the guess is never longer than the name and keeps all of it but at most the last four characters |
| Gzip.StripsGz | destream/decompressors/gzip.py:20-23 | ".gz" and "-gz", in any case, are cut and the stem keeps its case |
| Gzip.StripsZ | destream/decompressors/gzip.py:24-29 | ".z", "-z" and "_z", in any case, are cut |
| Gzip.TarSuffix | destream/decompressors/gzip.py:30-31 | ".tgz" and ".taz", in any case, become ".tar" |
| Gzip.ChangedExactlyWhenSuffixed | destream/decompressors/gzip.py:19-34 | with a gzip MIME, the name is returned unchanged exactly when its lowered form carries none of the seven suffixes |
| Bzip2.Guess | destream/decompressors/bzip2.py:13-16 | the base guess, with ".tar" appended exactly when the original name ends ".tbz2" or ".tbz" |
| Bzip2.TarBundle | destream/decompressors/bzip2.py:13-16 | "x.tbz2" and "x.tbz" become "x.tar" |
| Bzip2.PlainBzip2 | destream/decompressors/bzip2.py:13-16 | "x.bz2" and "x.bz" become "x" |
| Bzip2.UpperCaseKept | destream/decompressors/bzip2.py:13-16 | the suffix test is case-sensitive: "x.TBZ" is kept |
| Bzip2.GuessAsWrittenAgrees | destream/decompressors/bzip2.py:13-16 | `Bunzip2._guess` as written equals the corrected guess on every name without a newline, and raises AttributeError on "a\nb" whatever the MIME |
| Lzma.Guesses | destream/decompressors/lzma.py:6-10 | only "application/x-lzma" is accepted, and only ".lzma" is stripped |
| Lzma.Availability | destream/decompressors/lzma.py:9 | the only candidate is `unlzma` |
| Xz.Guesses | destream/decompressors/xz.py:6-10 | only "application/x-xz" is accepted, and only ".xz" is stripped |
| Xz.Availability | destream/decompressors/xz.py:9 | the only candidate is `unxz` |
| Zstd.Guesses | destream/decompressors/zstd.py:6-10 | only "application/x-zstd" is accepted, and only ".zst" is stripped |
| Zstd.Availability | destream/decompressors/zstd.py:9 | the only candidate is `unzstd` |
| Tar.Untar.New | destream/decompressors/tar.py:65-83 | the input is made seekable; an empty archive raises OSError; one member is presented as that member's bytes under its name; several members present the rewound source under the given name |
| Tar.Untar.Members | destream/decompressors/tar.py:88-92 | the member names in the library's order; only the source's cursor may change, and it is put back where it was |
| Tar.Untar.Close | destream/decompressors/tar.py:106-113 | a single member's stream is closed, or else the library handle alone |
| Zip.Unzip.New | destream/decompressors/zip.py:15-24 | the input is made seekable; one member is read under the tag "zip:<member>"; several members leave the archive empty; the name is never changed |
| Zip.Unzip.Members | destream/decompressors/zip.py:26-27 | the names of the library's entries, one per entry and in the library's order |
| Rar.ParseHunk | destream/decompressors/rar.py:15-24 | the hunk's dictionary, or StopIteration for the hunk whose service is "EOF" |
| Rar.ParseHeader | destream/decompressors/rar.py:27-31 | a header whose details do not mention RAR fails its assertion; a missing details field is AttributeError |
| Rar.ParseMember | destream/decompressors/rar.py:34-43 | the name is required; sizes default to 0; the CRC is the big-endian value of four hex-encoded bytes and fits in 32 bits |
| Rar.IsFile | destream/decompressors/rar.py:45-46 | a file is a member whose type is "File"; without a type line there is no answer |
| Rar.IsDir | destream/decompressors/rar.py:48-49 | a directory is a member whose type is "Directory" |
| Rar.NeverFileAndDirectory | destream/decompressors/rar.py:45-49 | no member is both |
| Rar.Members | destream/decompressors/rar.py:82 | the corrected reading: never more members than hunks, since reading stops at the closing hunk; a failure is the exception of the first hunk that does not parse, with no closing hunk before it |
| Rar.MembersWithoutClosingHunk | destream/decompressors/rar.py:82 | when no hunk closes the listing and every hunk parses, every hunk is read as a member |
| Rar.MembersParsed | destream/decompressors/rar.py:82 | each member read is the parse of the hunk at its own position, so hunks are neither skipped nor reordered |
| Rar.ClosingHunkBreaksAsWritten | destream/decompressors/rar.py:82 | when member hunks are followed by the closing hunk, the corrected reading returns the members before it, while the code as written raises RuntimeError |
| Rar.AgreeWithoutClosingHunk | destream/decompressors/rar.py:82 | without a closing hunk, both readings agree |
| Rar.ServiceEofCloses | destream/decompressors/rar.py:22 | the line "Service: EOF" closes the listing |
| Rar.EofLineCloses | destream/decompressors/rar.py:17-22 | any one-line hunk whose key normalises to "service" and whose value is EOF closes the listing |
| Rar.ReadListing | destream/decompressors/rar.py:77-82 | a listing of fewer than two hunks raises StopIteration; otherwise the second hunk is the header and the rest are members |
| Rar.ListingWithClosingHunk | destream/decompressors/rar.py:79-82 | a listing ending with the closing hunk is read by the corrected parser and refused with RuntimeError as written |
| Rar.ListingAgreesWithoutClosingHunk | destream/decompressors/rar.py:79-82 | a listing with no closing hunk among its member hunks is read the same by the corrected parser and as written |
| Rar.ListArgv | destream/decompressors/rar.py:77-78 | the listing command is the program followed by `vta <temp>` |
| Rar.OpenArgv | destream/decompressors/rar.py:98-101 | a member is piped with `p -ierr <temp> <member>` |
| Rar.ExtractArgv | destream/decompressors/rar.py:134-137 | extraction runs `x <temp> <member> <path>` |
| Rar.ExtractAllArgv | destream/decompressors/rar.py:147-150 | extracting all lists the names in order, the destination last |
| Rar.OpenMember | destream/decompressors/rar.py:97-115 | opening a member of a multi-member archive gives the bytes the tool pipes exactly when it exits with 0, else CalledProcessError with its status |
| Rar.Extract | destream/decompressors/rar.py:133-144 | extraction succeeds exactly when the tool exits with 0, else CalledProcessError with its status |
| Rar.ExtractAll | destream/decompressors/rar.py:146-157 | the same for extracting all |
| Rar.DigitsEnd | destream/decompressors/rar.py:67 | the end of a run of digits |
| Rar.BannerRoundTrip | destream/decompressors/rar.py:67-70 | a banner starting "RAR a.b" reports version (a, b) |
| Rar.SupportedIsMajorFive | destream/decompressors/rar.py:72 | tuple order against (5, 0) means major version at least 5 |
| Rar.CheckAvailability | destream/decompressors/rar.py:63-73 | the pipe lookup's assertion, IndexError and OSError outcomes leave the command as it was; otherwise the program becomes the first candidate found and the result is the version check on the banner that program prints |
| Rar.VersionCheck | destream/decompressors/rar.py:66-73 | a failed run propagates its error; a banner without "RAR a.b" raises "<program>: can not determine version"; a version below 5.0 raises "<program>: incompatible version (a, b)"; otherwise the version is returned |
| Rar.Availability | destream/decompressors/rar.py:52-61 | the candidates are "rar" then "unrar": "rar" is used when found, "unrar" otherwise, and the missing message names both |
| Rar.Unrar.New | destream/decompressors/rar.py:75-92 | the input is copied to a temporary file and listed; one member is piped from the tool under its name and tag; otherwise the rewound copy is presented under the given name |
| Rar.Unrar.Close | destream/decompressors/rar.py:124-131 | closing leaves the archive closed, with the cursor unchanged |
| P7zip.Required | destream/decompressors/p7zip.py:29-31 | a required field is KeyError when missing and `int()` of its text otherwise |
| P7zip.IntOrZero | destream/decompressors/p7zip.py:40-41 | a present but empty field reads as 0 |
| P7zip.ParseHeader | destream/decompressors/p7zip.py:26-32 | a header needs integer physical size, headers size and block count, checked in that order |
| P7zip.MemberOf | destream/decompressors/p7zip.py:35-45 | the path and an integer size are required; packed size and block may be empty; an empty CRC stays empty and any other is four hex bytes folded big-endian |
| P7zip.IsFile | destream/decompressors/p7zip.py:47-48 | a file's first attribute letter is not 'D'; missing attributes are AttributeError and empty ones IndexError |
| P7zip.IsDir | destream/decompressors/p7zip.py:50-51 | a directory's first attribute letter is 'D' |
| P7zip.DirIsNotFile | destream/decompressors/p7zip.py:47-51 | every member with attributes is exactly one of file and directory |
| P7zip.ParseMembers | destream/decompressors/p7zip.py:69-71 | one member per block, each the parse of its block; failing exactly when some block fails, with the first failing block's exception |
| P7zip.ReadListing | destream/decompressors/p7zip.py:66-71 | no dash line before the header makes `.group` fail; no ten-dash line makes `.end` fail; otherwise the header block and the member blocks after the ten-dash line |
| P7zip.MemberHunksOfLayout | destream/decompressors/p7zip.py:69-71 | the member regex yields exactly the blank-line separated blocks of a listing |
| P7zip.MembersAfterTenDashes | destream/decompressors/p7zip.py:69-71 | the members parsed from a listing are those of its blocks after the ten-dash line |
| P7zip.HeaderAfterDashes | destream/decompressors/p7zip.py:68 | the header regex captures the block after a dash line |
| P7zip.ListArgv | destream/decompressors/p7zip.py:66-67 | the listing command is `l <temp> -slt` |
| P7zip.OpenArgv | destream/decompressors/p7zip.py:87-90 | a member is piped with `e <temp> -so <member>` |
| P7zip.ExtractArgv | destream/decompressors/p7zip.py:123-126 | extraction runs `x <temp> -y -o<path> <member>` |
| P7zip.ExtractAllArgv | destream/decompressors/p7zip.py:136-138 | extracting all puts the names last, in order |
| P7zip.OpenMember | destream/decompressors/p7zip.py:86-104 | opening a member of a multi-member archive gives the bytes the tool pipes exactly when it exits with 0, else CalledProcessError |
| P7zip.Extract | destream/decompressors/p7zip.py:122-133 | extraction succeeds exactly when the tool exits with 0 |
| P7zip.ExtractAll | destream/decompressors/p7zip.py:135-146 | the same for extracting all |
| P7zip.Availability | destream/decompressors/p7zip.py:60-62 | the only candidate is `7zr` |
| P7zip.Un7z.New | destream/decompressors/p7zip.py:64-81 | the input is copied and listed; one member is piped from the tool under its name and tag; otherwise the rewound copy is presented under the given name |
| P7zip.Un7z.Close | destream/decompressors/p7zip.py:113-120 | closing leaves the archive closed, with the cursor unchanged |
| Classes.DeclOf | destream/decompressors/__init__.py:6-13 | each class's declaration; exactly the tar, zip, rar and 7z classes are packs |
| Registry.BuiltinsAreTheNamespaceClasses | destream/decompressors/__init__.py:15-20 | the table is exactly the package's Archive subclasses, by ascending name, each with priority 0 |
| Registry.UnzstdNotBuiltin | destream/decompressors/__init__.py:6-13 | the zstd class is not in the table, since no import binds it |
| Registry.IntendedBuiltinsRegisterZstd | destream/decompressors/__init__.py:6-20 | the corrected table adds the zstd class after the others, keeping name order and priority 0 |
| Guessing.ClassGuess | destream/guesser.py:26-27 | the corrected guess of each class, which fails only with ValueError |
| Guessing.ClassGuessAgreesWithoutNewline | destream/guesser.py:26-27 | every class's guess as written equals the corrected one on names without a newline; on "a\nb" Bunzip2's guess as written raises AttributeError |
| Guessing.SeekableLayer | destream/helpers.py:57-70 | a pack reads a seekable archive: the input itself, or a temporary copy of it |
| Guessing.Construct | destream/guesser.py:29 | a constructed archive has the trying class; its chain strictly extends the input's by at most two classes (a temporary copy of an unseekable input to a tar or zip, then the class) and its tags by at most one (exactly one for packs); the base class cannot be constructed |
| Guessing.ConstructTar | destream/decompressors/tar.py:65-83 | a tar archive has class Untar, grows its input's record, and adds exactly one tag |
| Guessing.ConstructTarOutcome | destream/decompressors/tar.py:65-83 | a tar fails as its member list fails, with IOError when there is no first member; otherwise its record is the one `Tar.Untar.New` gives: the collapsed name and tag over the seekable input |
| Guessing.ConstructZip | destream/decompressors/zip.py:15-24 | a zip archive has class Unzip, grows its input's record, and adds exactly one tag |
| Guessing.ConstructZipOutcome | destream/decompressors/zip.py:15-24 | a zip fails exactly as its member list fails; otherwise its record is the one `Zip.Unzip.New` gives: the name passed in and the collapsed tag |
| Guessing.ConstructRar | destream/decompressors/rar.py:75-92 | a rar archive has class Unrar, grows its input's record, and adds exactly one tag |
| Guessing.ConstructRarOutcome | destream/decompressors/rar.py:75-92 | a rar fails exactly as `unrar vta` or the reading of its listing fails; otherwise its record is the one `Rar.Unrar.New` gives, seekable only when it stands for the whole copy |
| Guessing.Construct7z | destream/decompressors/p7zip.py:64-80 | a 7z archive has class Un7z, grows its input's record, and adds exactly one tag |
| Guessing.Construct7zOutcome | destream/decompressors/p7zip.py:64-80 | a 7z archive fails exactly as `7z l -slt` or the reading of its listing fails; otherwise its record is the one `P7zip.Un7z.New` gives |
| Guessing.ConstructFilter | destream/helpers.py:97-107 | a filter archive has the filter's class and grows its input's record |
| Guessing.ConstructFilterOutcome | destream/helpers.py:97-107 | a filter fails exactly as its pipe fails to start; otherwise it keeps the guessed name, adds its own compression tag and cannot seek |
| Guessing.Attempt | destream/guesser.py:22-31 | a pack is never stacked on its own class; a class is accepted exactly when its guess, its availability check and its construction succeed; only ValueError is swallowed |
| Guessing.FirstMatch | destream/guesser.py:21-32 | an accepted archive extends its input; an escaping error is never ValueError |
| Guessing.FirstMatchWins | destream/guesser.py:21-32 | no archive comes back exactly when every candidate skips or declines; otherwise the first candidate that does not decides the outcome |
| Guessing.PackNotStackedOnItself | destream/guesser.py:22-24 | a pack is never wrapped by its own class |
| Guessing.SortByPriorityIsStable | destream/guesser.py:21 | `sorted` orders by priority, permutes the entries, and keeps the order of entries with equal priority |
| Guessing.SamePriorityKeepsOrder | destream/guesser.py:21 | sorting a table of equal priorities leaves it unchanged |
| Guessing.BuiltinOrder | destream/guesser.py:16-21 | the built-in table plus priority-0 extras is tried in exactly the order given |
| Guessing.Rounds | destream/guesser.py:37 | `range(limit)` runs `limit` rounds, none when negative |
| Stacking.StackedExtends | destream/guesser.py:37-41 | for any step that only extends its input, the loop's result keeps the start's chain and tags as prefixes and adds at most two classes and one tag per round used |
| Stacking.StackedSettles | destream/guesser.py:39-40 | the loop only returns an archive on which the step finds nothing |
| Stacking.StackedFailures | destream/guesser.py:39-43 | the loop fails with the round limit or with an error the step raised, so never with ValueError when the step lets none escape |
| Stacking.StackedEndless | destream/guesser.py:37-43 | a step that always finds something makes the loop raise "More than 10 pipes or infinite loop detected" |
| Stacking.StackedTwoRounds | destream/guesser.py:37-41 | with two rounds to spare, one archive found and nothing found on it, the loop returns that archive |
| Guessing.ResolveExtends | destream/guesser.py:37-41 | a successful open keeps the start archive's chain as a prefix, adding at most two classes and one tag per stacked round |
| Guessing.ResolveSettles | destream/guesser.py:39-40 | the archive returned is one on which no class accepts |
| Guessing.ResolveFailures | destream/guesser.py:30-43 | an error escaping `open` is never ValueError |
| Guessing.EndlessStackingHitsLimit | destream/guesser.py:37-43 | when some class accepts every time, `open` raises "More than 10 pipes or infinite loop detected" |
| Guessing.UnmatchedIsKept | destream/guesser.py:39-40 | when no class accepts, the start archive itself is returned |
| Guessing.FoundThenKept | destream/guesser.py:37-41 | when the first round finds an archive on which every candidate declines, `open` returns that archive |
| Guessing.StartLayer | destream/helpers.py:23-30 | the first archive has class ArchiveFile; without a file object it exists exactly when a name is given and names a file; with no name it is TypeError |
| Guessing.Guesser.constructor | destream/guesser.py:14-17 | the table is the decompressors followed by the extras, with the given limit |
| Guessing.Guesser.Guess | destream/guesser.py:19-32 | the loop returns the outcome of the first candidate, in sorted order, that does not skip or decline |
| Guessing.Guesser.Open | destream/guesser.py:34-43 | opening fails as the first archive does, else gives the fixed point reached within the limit |
| Guessing.Guesser.Stack | destream/guesser.py:37-43 | the loop stacks guesses until none matches or the limit is reached |
| Guessing.Guesser.Round | destream/guesser.py:38-41 | one round: an error or no match ends the loop with the loop's own outcome, and a match leaves the loop's outcome that of the archive found with one round fewer |
| Guessing.Open | destream/guesser.py:46-50 | the module-level `open` uses the built-in table in its own order with limit 10 |
| Guessing.Sniffing | destream/guesser.py:20 | a MIME oracle that reports one type for the raw file and plain text for anything decoded |
| Guessing.UnknownMimeDeclined | destream/guesser.py:25-31 | every built-in class declines a MIME type none of them declares |
| Guessing.UndeclaredDeclined | destream/guesser.py:22-31 | every candidate whose class declares its MIME types skips or declines a MIME type it does not declare |
| Guessing.DecodedDeclined | destream/guesser.py:20-31 | on a decoded archive, reported as plain text, every class of either table skips or declines |
| Guessing.GunzipNamesX | destream/decompressors/gzip.py:20-21 | gzip data named "x.gz" is guessed to be "x" |
| Guessing.GzipFirstRound | destream/guesser.py:21-29 | on gzip data, the first round stacks Gunzip |
| Guessing.GzipFileUnwrapsOnce | destream/guesser.py:34-43 | a gzip file "x.gz" opens as one Gunzip layer named "x" and tagged gzip |
| Guessing.ZstdMimeDeclinedByBuiltins | destream/decompressors/__init__.py:6-20 | no built-in class accepts the zstd MIME type |
| Guessing.ZstdFileKeptByBuiltins | destream/guesser.py:34-43 | with the table as written, a zstd file is returned undecoded |
| Guessing.ZstdFirstRound | destream/guesser.py:21-29 | with the corrected table, the first round on zstd data stacks Unzstd after the other eight classes decline |
| Guessing.ZstdFileUnwrappedByIntendedTable | destream/guesser.py:34-43 | with the corrected table, a zstd file opens as one Unzstd layer named "x" |

## Left out

- File and pipe I/O, threads and subprocesses are not modelled. This covers
  `Popen`, the feeder thread's copy loop, `terminate`/`join`/`wait`, and
  `BufferedReader` buffering and `peek`. Tool outputs, exit statuses, piped
  bytes and `find_executable` are parameters. Only the outcomes the code
  derives from them are modelled (`Helpers.CheckExit`,
  `Helpers.FeederOutcome`, `Helpers.TerminateOutcome`).
- libmagic is a parameter (`Guessing.Env.mime`), indexed by the archive
  record rather than by its first 1024 bytes.
- The tarfile and zipfile libraries are not part of this model. Their member
  lists are inputs. Tar and zip `open`, `extract` and `extractall` are single
  library calls, so they are not modelled.
- Guessing.Construct builds the value-level record the guesser sees. The
  class-level constructors (`Tar.Untar.New`, `Rar.Unrar.New` and the others)
  are modelled separately and are not called from the guesser;
  `Guessing.ConstructTarOutcome` and its siblings state that each record is
  the one the class-level constructor gives its archive. The rewrite
  of a class's command by the availability check is not threaded through
  the guesser. The filter classes, and classes a caller adds, are built
  through the `spawn` parameter.
- Guessing.Attempt: the availability check of each class is a parameter
  (`Env.available`) rather than the per-class `CheckAvailability` models.
- Rar.CheckAvailability: `LooseVersion` is modelled as a (major, minor) pair
  of naturals, which is all the `\d+\.\d+` capture can produce.
- The rar member's `ratio` field (a float) is not modelled.
- Lower-casing, `\W`, `\d` and whitespace are ASCII only. `os.path.normcase`
  is the identity, as on POSIX.
- The Python 2 branches (`file` objects, `FileMember`) are not modelled.
- An integer file descriptor passed as `fileobj` is not modelled.
- Helpers.Truthy: a name that is not a string is always taken to be truthy. A falsy non-string name, such as 0, is not modelled.
- Clean-up done by the garbage collector (closing temporary files) is not
  modelled.
- The older `StreamDecompressor` package is not modelled.
- Two behaviours that may look unintended are modelled as the code has
  them:
  - An unavailable external tool raises OSError from the availability
    check, and that error escapes `Guesser.open` rather than letting the
    next class be tried.
  - A zip archive with several members reads as empty bytes, because
    `single() and ...` passes False as the file object.
- The guesser and the rar container run two corrected definitions (see
  "## Findings"): the name split that never fails, and the member reading
  that stops at the closing hunk. The code as written agrees with them on
  names without a newline (`Guessing.ClassGuessAgreesWithoutNewline`) and
  on listings without a closing hunk (`Rar.ListingAgreesWithoutClosingHunk`).
  On other inputs the program raises AttributeError or RuntimeError, and
  these members do not promise that. Each line below names one of them.
- ArchiveCore.BaseGuess: the corrected split of the name; as written a name such as "a\nb" raises AttributeError (`ArchiveCore.NewlineNameRaises`).
- ArchiveCore.StripExtension: the corrected split of the name; as written a name such as "a\nb" raises AttributeError (`ArchiveCore.NewlineNameRaises`).
- ArchiveCore.GuessStripsDeclaredExtension: stated of the corrected guess for every stem; as written it holds for stems without a newline (`ArchiveCore.GuessAgreesWithoutNewline`).
- ArchiveCore.GuessKeepsUndeclaredExtension: stated of the corrected guess for every stem; as written it holds for stems without a newline (`ArchiveCore.GuessAgreesWithoutNewline`).
- Lzma.Guesses: stated of the corrected guess for every stem; as written it holds for stems without a newline (`ArchiveCore.GuessAgreesWithoutNewline`).
- Xz.Guesses: stated of the corrected guess for every stem; as written it holds for stems without a newline (`ArchiveCore.GuessAgreesWithoutNewline`).
- Zstd.Guesses: stated of the corrected guess for every stem; as written it holds for stems without a newline (`ArchiveCore.GuessAgreesWithoutNewline`).
- Bzip2.Guess: stated of the corrected guess; as written it holds for stems without a newline (`Bzip2.GuessAsWrittenAgrees`).
- Bzip2.TarBundle: stated of the corrected guess; as written it holds for stems without a newline (`Bzip2.GuessAsWrittenAgrees`).
- Bzip2.PlainBzip2: stated of the corrected guess; as written it holds for stems without a newline (`Bzip2.GuessAsWrittenAgrees`).
- Bzip2.UpperCaseKept: stated of the corrected guess; as written it holds for stems without a newline (`Bzip2.GuessAsWrittenAgrees`).
- Guessing.ClassGuess: the corrected guess, which fails only with ValueError; as written Bunzip2, the first built-in class tried, raises AttributeError on "a\nb", which escapes `open` instead of the file being kept.
- Guessing.UnknownMimeDeclined: stated for every name; as written it holds for names without a newline only (`Guessing.ClassGuessAgreesWithoutNewline`).
- Guessing.UndeclaredDeclined: stated for every name; as written it holds for names without a newline only (`Guessing.ClassGuessAgreesWithoutNewline`).
- Guessing.DecodedDeclined: stated for every name; as written it holds for names without a newline only (`Guessing.ClassGuessAgreesWithoutNewline`).
- Guessing.ZstdMimeDeclinedByBuiltins: stated for every name; as written it holds for names without a newline only (`Guessing.ClassGuessAgreesWithoutNewline`).
- Rar.ReadListing: reads the members with the corrected `Rar.Members`; as written a listing that ends with the closing hunk raises RuntimeError (`Rar.ListingWithClosingHunk`).
- Rar.Unrar.New: reads the members with the corrected `Rar.Members`; as written a listing that ends with the closing hunk raises RuntimeError (`Rar.ListingWithClosingHunk`).
- Guessing.ConstructRarOutcome: reads the members with the corrected `Rar.Members`; as written a listing that ends with the closing hunk raises RuntimeError (`Rar.ListingWithClosingHunk`).
- Guessing.ConstructRar: reads the members with the corrected `Rar.Members`; as written a listing that ends with the closing hunk raises RuntimeError (`Rar.ListingWithClosingHunk`).

## Findings

| source | as written | input that shows it | evidently intended | confidence | as-written member | corrected member |
|---|---|---|---|---|---|---|
| destream/archive.py:11,57-61 | `RE_EXTENSION.search(name)` returns None when the name holds a newline, other than a final one, that is not inside its final extension (`$` matches only at the end or before a final newline, and `.` does not cross newlines; "x.gz\nfoo" still matches), and `match.group(2)` then raises AttributeError | the name "a\nb" with any MIME type, for any class declaring `_mimes` and `_extensions` | the name's final extension is split off (or the name kept), and a MIME mismatch is a ValueError that lets the next class be tried | not executed | ArchiveCore.NewlineNameRaises | ArchiveCore.GuessAgreesWithoutNewline |
| destream/decompressors/__init__.py:6-13 | the zstd module is never imported, so `Unzstd` is not in `builtin_decompressors` | a zstd file "x.zst" opened with the module-level `open` is returned undecoded | `Unzstd` is registered like the other filters, and the file opens as one zstd layer | not executed | Guessing.ZstdFileKeptByBuiltins | Guessing.ZstdFileUnwrappedByIntendedTable |
| destream/decompressors/rar.py:22-23,82 | `parse_hunk` raises StopIteration for the closing "Service: EOF" hunk inside a generator expression, which Python 3.7 and later turn into RuntimeError (PEP 479) | a `vta` listing whose last hunk is "Service: EOF" | the closing hunk ends the member list | not executed | Rar.ClosingHunkBreaksAsWritten | Rar.Members |
