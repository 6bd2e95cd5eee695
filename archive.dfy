/**
 * The base archive: class identities and their declarations, the chain of
 * decompressors and compression tags every archive records, the extension
 * split used to guess the next display name, the base `_guess`, and the
 * archive object itself with its `close`.
 */
module ArchiveCore {

  import opened Errors
  import opened Text
  import opened Streams

  /** The archive classes of the library, plus classes supplied by a caller
      (`extra_decompressors`), identified by a number and carrying their
      declaration. */
  datatype ClassId =
    | ArchiveBase | ArchivePackBase | ExternalPipeBase | ArchiveFile | ArchiveTemp
    | Gunzip | Bunzip2 | Unlzma | Unxz | Unzstd | Untar | Unzip | Unrar | Un7z
    | Extra(id: nat, decl: ClassDecl)

  /** The class-level attributes the code reads with `hasattr`/`getattr`:
      `_mimes`, `_extensions`, `_compression`, `_unique_instance`,
      `_command`, `__fallbackcommands__`, and whether the class derives from
      ArchivePack.  `None` means the attribute is not declared. */
  datatype ClassDecl = ClassDecl(
    mimes: Option<seq<string>>,
    extensions: Option<seq<string>>,
    compression: Option<string>,
    uniqueInstance: bool,
    command: Option<seq<string>>,
    fallbacks: Option<seq<string>>,
    isPack: bool)

  /** What an archive records about itself: its class, its display name, the
      classes applied so far (`_decompressors`), the compression tags so far
      (`compressions`), and whether it can seek. */
  datatype Layer = Layer(
    kind: ClassId,
    realname: string,
    decompressors: seq<ClassId>,
    compressions: seq<string>,
    seekable: bool)

  function TagList(tag: Option<string>): seq<string> {
    if tag.Some? then [tag.value] else []
  }

  /** The bookkeeping of `Archive.__init__`: continue the source's chain when
      the source is an archive, start a new one otherwise, then append the
      compression tag when the class (or instance) declares one. */
  function Derive(kind: ClassId, realname: string, source: Option<Layer>, tag: Option<string>,
                  seekable: bool): Layer
  {
    if source.Some? then
      Layer(kind, realname, source.value.decompressors + [kind],
            source.value.compressions + TagList(tag), seekable)
    else
      Layer(kind, realname, [kind], TagList(tag), seekable)
  }

  /** A derived archive extends its source's lists by its own class and at
      most its own tag, leaving the source's entries in place. */
  lemma DeriveExtends(kind: ClassId, realname: string, source: Layer, tag: Option<string>, seekable: bool)
    ensures var r := Derive(kind, realname, Some(source), tag, seekable);
      && |r.decompressors| == |source.decompressors| + 1
      && r.decompressors[..|source.decompressors|] == source.decompressors
      && r.decompressors[|source.decompressors|] == kind
      && |r.compressions| == |source.compressions| + (if tag.Some? then 1 else 0)
      && r.compressions[..|source.compressions|] == source.compressions
      && (tag.Some? ==> r.compressions[|source.compressions|] == tag.value)
  {
    var r := Derive(kind, realname, Some(source), tag, seekable);
    assert r.decompressors[..|source.decompressors|] == source.decompressors;
    assert r.compressions[..|source.compressions|] == source.compressions;
  }

  // ---------------------------------------------------------------------
  // Splitting a name at its last extension.

  /** `stem` and, when present, the text after the final `'.'`. */
  datatype Parts = Parts(stem: string, ext: Option<string>)

  /** The split `RE_EXTENSION` is written to perform: at the last `'.'`,
      provided at least one character follows it. */
  function SplitExtension(name: string): (r: Parts)
    ensures r.ext.Some? ==> r.stem + "." + r.ext.value == name
    ensures r.ext.Some? ==> r.ext.value != [] && '.' !in r.ext.value
    ensures r.ext.None? ==> r.stem == name
    ensures r.ext.None? ==> NoneFrom(name, '.', 0) || name[|name| - 1] == '.'
  {
    var d := LastIndex(name, '.');
    if d.Some? && d.value + 1 < |name| then
      var r := Parts(name[..d.value], Some(name[d.value + 1..]));
      assert r.stem + "." + r.ext.value == name;
      r
    else
      Parts(name, None)
  }

  /** `RE_EXTENSION.search(name)` exactly as Python evaluates
      `^(.*?)(\.([^.]+))?$` from position `i` of the lazy group: `.` does not
      cross a newline, `[^.]` does, and `$` also matches before a final
      newline.  `None` is "no match". */
  function RegexScan(s: string, i: nat): Option<Parts>
    requires i <= |s|
    decreases |s| - i
  {
    if i < |s| && s[i] == '.' && i + 1 < |s| && NoneFrom(s, '.', i + 1) then
      Some(Parts(s[..i], Some(s[i + 1..])))
    else if i == |s| || (i == |s| - 1 && s[i] == '\n') then
      Some(Parts(s[..i], None))
    else if s[i] == '\n' then
      None
    else
      RegexScan(s, i + 1)
  }

  function RegexSplit(name: string): Option<Parts> {
    RegexScan(name, 0)
  }

  lemma {:induction false} RegexScanNoNewline(s: string, i: nat)
    requires i <= |s| && '\n' !in s
    requires forall j :: 0 <= j < i && s[j] == '.' ==> j + 1 == |s| || !NoneFrom(s, '.', j + 1)
    ensures RegexScan(s, i) == Some(SplitExtension(s))
    decreases |s| - i
  {
    var d := LastIndex(s, '.');
    if i < |s| && s[i] == '.' && i + 1 < |s| && NoneFrom(s, '.', i + 1) {
      assert d.Some? && d.value == i;
    } else if i == |s| {
      if d.Some? && d.value + 1 < |s| {
        assert false;
      }
      assert s[..i] == s;
    } else {
      assert s[i] != '\n';
      RegexScanNoNewline(s, i + 1);
    }
  }

  /** On names without a newline the regular expression performs exactly the
      intended split. */
  lemma RegexSplitAgrees(name: string)
    requires '\n' !in name
    ensures RegexSplit(name) == Some(SplitExtension(name))
  {
    RegexScanNoNewline(name, 0);
  }

  /** A name with a newline that is not its last character, and no usable
      dot before that newline, makes the search fail. */
  lemma RegexSplitFailsOnNewline()
    ensures RegexSplit("a\nb") == None
  {
  }

  // ---------------------------------------------------------------------
  // Archive._guess

  /** The name with its final extension removed when that extension is one of
      `exts` (`os.path.normcase` is the identity on POSIX). */
  function StripExtension(name: string, exts: seq<string>): (r: string)
    ensures r == name || (SplitExtension(name).ext.Some?
                          && r + "." + SplitExtension(name).ext.value == name
                          && SplitExtension(name).ext.value in exts)
  {
    var sp := SplitExtension(name);
    if sp.ext.Some? && sp.ext.value in exts then sp.stem else name
  }

  /** `Archive._guess` with the intended split: refuse a unique class already
      in the chain, accept anything when no `_mimes` are declared, otherwise
      refuse a MIME outside `_mimes` and strip a declared extension. */
  function BaseGuess(cls: ClassId, decl: ClassDecl, mime: string, name: string,
                     chain: seq<ClassId>): (r: Result<string>)
    ensures r.Err? ==> r.exc.ValueError?
    ensures r.Err? <==> (decl.uniqueInstance && cls in chain) || (decl.mimes.Some? && mime !in decl.mimes.value)
    ensures r.Ok? && (decl.mimes.None? || decl.extensions.None?) ==> r.value == name
    ensures r.Ok? && decl.mimes.Some? && decl.extensions.Some? ==> r.value == StripExtension(name, decl.extensions.value)
  {
    if decl.uniqueInstance && cls in chain then
      Err(ValueError("class already in the decompressor list"))
    else if decl.mimes.None? then
      Ok(name)
    else
      var realname := if decl.extensions.Some? then StripExtension(name, decl.extensions.value) else name;
      if mime !in decl.mimes.value then Err(ValueError("can not decompress fileobj"))
      else Ok(realname)
  }

  /** `Archive._guess` as written: the search result is dereferenced
      (`match.group(2)`) whenever `_extensions` is declared, so a failed
      search raises AttributeError before the MIME is looked at. */
  function BaseGuessAsWritten(cls: ClassId, decl: ClassDecl, mime: string, name: string,
                              chain: seq<ClassId>): Result<string>
  {
    if decl.uniqueInstance && cls in chain then
      Err(ValueError("class already in the decompressor list"))
    else if decl.mimes.None? then
      Ok(name)
    else if decl.extensions.Some? && RegexSplit(name).None? then
      Err(AttributeError("'NoneType' object has no attribute 'group'"))
    else
      var sp := RegexSplit(name);
      var realname :=
        if decl.extensions.Some? && sp.value.ext.Some? && sp.value.ext.value in decl.extensions.value
        then sp.value.stem else name;
      if mime !in decl.mimes.value then Err(ValueError("can not decompress fileobj"))
      else Ok(realname)
  }

  /** The code as written agrees with the intended guess on every name
      without a newline. */
  lemma GuessAgreesWithoutNewline(cls: ClassId, decl: ClassDecl, mime: string, name: string,
                                  chain: seq<ClassId>)
    requires '\n' !in name
    ensures BaseGuessAsWritten(cls, decl, mime, name, chain) == BaseGuess(cls, decl, mime, name, chain)
  {
    RegexSplitAgrees(name);
  }

  /** ... and on a name such as "a\nb" every class declaring `_mimes` and
      `_extensions` raises AttributeError, whatever the MIME: the exception is
      not a ValueError, so it escapes the resolver. */
  lemma NewlineNameRaises(cls: ClassId, decl: ClassDecl, mime: string, chain: seq<ClassId>)
    requires decl.mimes.Some? && decl.extensions.Some?
    requires !(decl.uniqueInstance && cls in chain)
    ensures BaseGuessAsWritten(cls, decl, mime, "a\nb", chain).Err?
    ensures BaseGuessAsWritten(cls, decl, mime, "a\nb", chain).exc.AttributeError?
  {
    RegexSplitFailsOnNewline();
  }

  /** The intended guess strips a declared extension exactly: the kept stem
      plus the extension gives back the name. */
  lemma GuessStripsDeclaredExtension(cls: ClassId, decl: ClassDecl, mime: string,
                                      stem: string, ext: string, chain: seq<ClassId>)
    requires decl.mimes.Some? && mime in decl.mimes.value
    requires decl.extensions.Some? && ext in decl.extensions.value
    requires ext != [] && '.' !in ext
    requires !(decl.uniqueInstance && cls in chain)
    ensures BaseGuess(cls, decl, mime, stem + "." + ext, chain) == Ok(stem)
  {
    SplitAtLastDot(stem, ext);
  }

  /** A final extension that is not declared stays on the name. */
  lemma GuessKeepsUndeclaredExtension(cls: ClassId, decl: ClassDecl, mime: string,
                                      stem: string, ext: string, chain: seq<ClassId>)
    requires decl.mimes.Some? && mime in decl.mimes.value
    requires decl.extensions.Some? && ext !in decl.extensions.value
    requires ext != [] && '.' !in ext
    requires !(decl.uniqueInstance && cls in chain)
    ensures BaseGuess(cls, decl, mime, stem + "." + ext, chain) == Ok(stem + "." + ext)
  {
    SplitAtLastDot(stem, ext);
  }

  /** The split of `stem + "." + ext` is at the dot that was added. */
  lemma SplitAtLastDot(stem: string, ext: string)
    requires ext != [] && '.' !in ext
    ensures SplitExtension(stem + "." + ext) == Parts(stem, Some(ext))
  {
    var name := stem + "." + ext;
    var d := LastIndex(name, '.');
    assert name[|stem|] == '.';
    assert NoneFrom(name, '.', |stem| + 1) by {
      forall j | |stem| + 1 <= j < |name| ensures name[j] != '.' {
        assert name[j] == ext[j - |stem| - 1];
      }
    }
    assert d.Some? && d.value == |stem|;
    assert name[..|stem|] == stem && name[|stem| + 1..] == ext;
  }

  // ---------------------------------------------------------------------
  // Containers

  /** `ArchivePack.single()`: the container holds exactly one member. */
  predicate Single<M>(members: seq<M>) {
    |members| == 1
  }

  /** What a container presents to the next round: its display name, the
      tag it records, and whether it stands for its only member. */
  datatype Presentation = Presentation(realname: string, tag: string, single: bool)

  /** The collapse rule shared by the containers: with exactly one member
      the tag becomes "<tag>:<member>" and, for containers that rename, the
      display name becomes the member's; otherwise the passed name and the
      plain tag are kept. */
  function Collapse(tag: string, name: string, members: seq<string>, renames: bool): (r: Presentation)
    ensures r.single <==> Single(members)
    ensures r.single ==> r.tag == tag + ":" + members[0]
    ensures r.single && renames ==> r.realname == members[0]
    ensures !r.single || !renames ==> r.realname == name
    ensures !r.single ==> r.tag == tag
  {
    if Single(members) then
      Presentation(if renames then members[0] else name, tag + ":" + members[0], true)
    else
      Presentation(name, tag, false)
  }

  /** The member's name can be read back from a collapsed tag. */
  lemma CollapsedTagNamesMember(tag: string, name: string, members: seq<string>, renames: bool)
    requires Single(members) && ':' !in tag
    ensures var t := Collapse(tag, name, members, renames).tag;
      Find(t, ":") == Some(|tag|) && t[..|tag|] == tag && t[|tag| + 1..] == members[0]
  {
    var t := Collapse(tag, name, members, renames).tag;
    assert t[..|tag|] == tag && t[|tag| + 1..] == members[0];
    assert OccursAt(t, ":", |tag|);
    forall j | 0 <= j < |tag| ensures !OccursAt(t, ":", j) {
      assert t[j] == tag[j];
    }
  }

  // ---------------------------------------------------------------------
  // The archive object

  /** What an archive was built from: nothing, a plain file object, or
      another archive (whose chain it then continues). */
  datatype Source = NoSource | RawSource(stream: Stream) | ArchiveSource(archive: Archive)

  /** `name or ''` */
  function NameOrEmpty(name: PyName): (r: string)
    ensures name.StrName? ==> r == name.s
    ensures name.NoName? ==> r == ""
  {
    match name
    case NoName => ""
    case StrName(s) => s
    case OtherName(shown) => shown
  }

  function SourceLayer(source: Source): Option<Layer> {
    if source.ArchiveSource? then Some(source.archive.Record()) else None
  }

  /** The file object a reader over `source` reads from. */
  function Reader(source: Source): (r: Stream?)
    ensures !source.NoSource? ==> r != null
  {
    match source
    case NoSource => null
    case RawSource(s) => s
    case ArchiveSource(a) => a.raw
  }

  class Archive {
    const kind: ClassId
    const realname: string
    const source: Source
    const closefd: bool
    const decompressors: seq<ClassId>
    const compressions: seq<string>
    /** the file object the buffered reader wraps */
    const raw: Stream

    function Record(): Layer {
      Layer(kind, realname, decompressors, compressions, raw.seekable)
    }

    /** `Archive.__init__`; `fileobj == NoSource` is a falsy file object and
        `tag` the `_compression` attribute seen through the instance. */
    constructor (kind: ClassId, name: PyName, fileobj: Source, source: Source, closefd: bool,
                 tag: Option<string>)
      requires kind != ArchiveBase
      ensures fileobj.NoSource? ==> fresh(raw) && raw.data == [] && raw.pos == 0 && raw.seekable && !raw.closed
      ensures !fileobj.NoSource? ==> raw == Reader(fileobj)
      ensures this.source == source && this.closefd == closefd && this.kind == kind
      ensures realname == NameOrEmpty(name)
      ensures Record() == Derive(kind, NameOrEmpty(name), SourceLayer(source), tag, raw.seekable)
    {
      this.kind := kind;
      if fileobj.NoSource? {
        this.raw := new Stream([], true, NoName);
      } else {
        this.raw := Reader(fileobj);
      }
      this.realname := NameOrEmpty(name);
      this.source := source;
      this.closefd := closefd;
      if source.ArchiveSource? {
        this.decompressors := source.archive.decompressors + [kind];
        this.compressions := source.archive.compressions + TagList(tag);
      } else {
        this.decompressors := [kind];
        this.compressions := TagList(tag);
      }
    }

    /** Construction with the `type(self) != Archive` assertion made a result. */
    static method New(kind: ClassId, name: PyName, fileobj: Source, source: Source, closefd: bool,
                      tag: Option<string>) returns (r: Result<Archive>)
      ensures kind == ArchiveBase <==> r.Err?
      ensures r.Err? ==> r.exc.AssertionError?
      ensures r.Ok? ==> r.value.realname == NameOrEmpty(name) && r.value.source == source
      ensures r.Ok? ==> r.value.Record() == Derive(kind, NameOrEmpty(name), SourceLayer(source), tag, r.value.raw.seekable)
      ensures r.Ok? && fileobj.NoSource? ==> fresh(r.value.raw) && r.value.raw.data == []
    {
      if kind == ArchiveBase {
        return Err(AssertionError("This class can not be used in standalone"));
      }
      var a := new Archive(kind, name, fileobj, source, closefd, tag);
      return Ok(a);
    }

    /** The `closed` property of the buffered reader. */
    function Closed(): bool
      reads raw
    {
      raw.closed
    }

    /** `close()`: closes the wrapped file object only when `closefd` holds. */
    method Close()
      modifies raw
      ensures raw.closed == (old(raw.closed) || closefd)
      ensures raw.pos == old(raw.pos)
    {
      if closefd {
        raw.Close();
      }
    }
  }
}
