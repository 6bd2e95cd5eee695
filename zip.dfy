/**
 * Unzip: a zip container read through the zipfile library from a seekable
 * copy of its input.  The library's view of the archive is an input here.
 */
module Zip {

  import opened Errors
  import opened Streams
  import opened ArchiveCore
  import opened Helpers
  import Tar

  const Tag := "zip"

  const Decl := ClassDecl(Some(["application/zip"]), Some(["zip"]), Some(Tag), false, None, None, true)

  class Unzip {
    const base: Archive
    const source: Source
    /** the library's `infolist()` */
    const entries: seq<Tar.Entry>

    constructor (base: Archive, source: Source, entries: seq<Tar.Entry>)
      ensures this.base == base && this.source == source && this.entries == entries
    {
      this.base := base;
      this.source := source;
      this.entries := entries;
    }

    /** `members()` */
    function Members(): (r: seq<string>)
      ensures |r| == |entries|
      ensures forall i :: 0 <= i < |entries| ==> r[i] == entries[i].name
    {
      Tar.Names(entries)
    }

    /** `single()`, inherited: exactly one member. */
    function IsSingle(): bool {
      Single(Members())
    }

    /** `Unzip.__init__`: make the input seekable, read the member list; with
        exactly one member, tag it and read that member; otherwise the
        `single() and ...` argument is False, so the archive reads nothing.
        The display name is always the name passed in. */
    static method New(name: string, fileobj: Source, entries: Result<seq<Tar.Entry>>,
                      creatable: bool, tempPath: string) returns (r: Result<Unzip>)
      requires !fileobj.NoSource? ==> Reader(fileobj).Valid()
      modifies Drained(fileobj)
      ensures fileobj.NoSource? ==> r.Err? && r.exc.AssertionError?
      ensures !fileobj.NoSource? && TempName(fileobj, NoName).Ok? && entries.Err? ==> r == Err(entries.exc)
      ensures r.Ok? ==> entries.Ok?
      ensures r.Ok? ==>
        var z := r.value;
        var p := Collapse(Tag, name, Tar.Names(entries.value), false);
        && z.entries == entries.value && z.IsSingle() == p.single
        && !z.source.NoSource? && Reader(z.source).seekable
        && (Reader(fileobj).seekable ==> z.source == fileobj)
        && z.base.kind == Unzip && z.base.source == z.source && z.base.realname == name
        && z.base.Record() == Derive(Unzip, name, SourceLayer(z.source), Some(p.tag), true)
        && fresh(z.base.raw) && z.base.raw.pos == 0
        && (p.single ==> z.base.raw.data == entries.value[0].data)
        && (!p.single ==> z.base.raw.data == [])
    {
      var src := MakeSeekable(fileobj, creatable, tempPath);
      if src.Err? {
        return Err(src.exc);
      }
      if entries.Err? {
        return Err(entries.exc);
      }
      var p := Collapse(Tag, name, Tar.Names(entries.value), false);
      var content: Source := NoSource;
      if p.single {
        var member := new Stream(entries.value[0].data, true, NoName);
        content := RawSource(member);
      }
      var base := new Archive(Unzip, StrName(name), content, src.value, true, Some(p.tag));
      var z := new Unzip(base, src.value, entries.value);
      return Ok(z);
    }
  }
}
