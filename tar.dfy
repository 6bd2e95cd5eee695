/**
 * Untar: a tar container read through the tarfile library from a seekable
 * copy of its input.  The library's view of the archive is an input here:
 * the members in order, each with its name and bytes.
 */
module Tar {

  import opened Errors
  import opened Streams
  import opened ArchiveCore
  import opened Helpers

  const Tag := "tar"

  const Decl := ClassDecl(Some(["application/x-tar"]), Some(["tar"]), Some(Tag), false, None, None, true)

  /** A member as the archive library yields it. */
  datatype Entry = Entry(name: string, data: seq<int>)

  function Names(entries: seq<Entry>): (r: seq<string>)
    ensures |r| == |entries|
    ensures forall i :: 0 <= i < |entries| ==> r[i] == entries[i].name
  {
    if entries == [] then [] else [entries[0].name] + Names(entries[1..])
  }

  class Untar {
    /** the archive this container reads as */
    const base: Archive
    /** the seekable object the library reads */
    const source: Source
    const single: bool
    const entries: seq<Entry>
    var tarClosed: bool

    ghost predicate Valid()
      reads this, Drained(source)
    {
      !source.NoSource? && Reader(source).seekable && Reader(source).Valid()
    }

    constructor (base: Archive, source: Source, single: bool, entries: seq<Entry>)
      ensures this.base == base && this.source == source && this.single == single
      ensures this.entries == entries && !tarClosed
    {
      this.base := base;
      this.source := source;
      this.single := single;
      this.entries := entries;
      tarClosed := false;
    }

    /** `Untar.__init__`: make the input seekable, read the member list
        (`entries`, or the library's error), refuse an archive without a
        first member, then present the only member or the whole archive
        rewound to its start. */
    static method New(name: string, fileobj: Source, entries: Result<seq<Entry>>,
                      creatable: bool, tempPath: string) returns (r: Result<Untar>)
      requires !fileobj.NoSource? ==> Reader(fileobj).Valid()
      modifies Drained(fileobj)
      ensures fileobj.NoSource? ==> r.Err? && r.exc.AssertionError?
      ensures !fileobj.NoSource? && TempName(fileobj, NoName).Ok? && entries.Err? ==> r == Err(entries.exc)
      ensures !fileobj.NoSource? && TempName(fileobj, NoName).Ok? && entries == Ok([]) ==>
        r.Err? && r.exc.OSError?
      ensures r.Ok? ==> entries.Ok? && entries.value != []
      ensures r.Ok? ==>
        var t := r.value;
        var p := Collapse(Tag, name, Names(entries.value), true);
        && t.Valid() && t.entries == entries.value && t.single == p.single
        && (Reader(fileobj).seekable ==> t.source == fileobj)
        && (!Reader(fileobj).seekable ==>
              t.source.ArchiveSource? && t.source.archive.kind == ArchiveTemp && t.source.archive.source == fileobj)
        && t.base.kind == Untar && t.base.source == t.source && t.base.realname == p.realname
        && t.base.Record() == Derive(Untar, p.realname, SourceLayer(t.source), Some(p.tag), true)
        && (t.single ==> fresh(t.base.raw) && t.base.raw.data == entries.value[0].data && t.base.raw.pos == 0)
        && (!t.single ==> t.base.raw == Reader(t.source) && t.base.raw.pos == 0)
    {
      var src := MakeSeekable(fileobj, creatable, tempPath);
      if src.Err? {
        return Err(src.exc);
      }
      var source := src.value;
      if entries.Err? {
        return Err(entries.exc);
      }
      if entries.value == [] {
        return Err(OSError(None, "can not read first member of the tar archive", ""));
      }
      var p := Collapse(Tag, name, Names(entries.value), true);
      var stream: Stream;
      if p.single {
        stream := new Stream(entries.value[0].data, true, NoName);
      } else {
        stream := Reader(source);
        stream.Seek(0);
      }
      var base := new Archive(Untar, StrName(p.realname), RawSource(stream), source, true, Some(p.tag));
      var t := new Untar(base, source, p.single, entries.value);
      return Ok(t);
    }

    /** `members()`: the library scans the archive, and the reading cursor is
        put back where it was. */
    method Members() returns (names: seq<string>)
      requires Valid()
      modifies Reader(source)`pos
      ensures Valid()
      ensures names == Names(entries)
      ensures Reader(source).pos == old(Reader(source).pos)
    {
      var src := Reader(source);
      var pos := src.Tell();
      src.Seek(|src.data|);
      names := Names(entries);
      src.Seek(pos);
    }

    /** `closed`: the member stream's state when single, the library's
        otherwise. */
    function Closed(): bool
      reads this, base.raw
    {
      if single then base.Closed() else tarClosed
    }

    /** `close()`: close the member stream when single, the library's handle
        otherwise (which leaves the source open). */
    method Close()
      modifies this, base.raw
      ensures single ==> base.raw.closed == (old(base.raw.closed) || base.closefd) && tarClosed == old(tarClosed)
      ensures !single ==> tarClosed && base.raw.closed == old(base.raw.closed)
      ensures Closed() == (old(Closed()) || !single || base.closefd)
    {
      if single {
        base.Close();
      } else {
        tarClosed := true;
      }
    }
  }
}
