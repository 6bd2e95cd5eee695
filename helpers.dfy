/**
 * The helper archives and decisions: ArchiveFile (an archive over a file
 * object or a named file), ArchiveTemp (a seekable copy in a temporary
 * file), make_seekable, the temporary directory choice, and the
 * executable lookup of pipe classes with its fallback commands.
 */
module Helpers {

  import opened Errors
  import opened Text
  import opened Streams
  import opened ArchiveCore

  /** Python truthiness of a name argument: `None` and `''` are false. */
  predicate Truthy(name: PyName) {
    name.OtherName? || (name.StrName? && name.s != [])
  }

  /** The `name` attribute of a file object (a buffered archive reports
      the name of the file object it wraps). */
  function ObjectName(fileobj: Source): PyName {
    if fileobj.NoSource? then NoName else Reader(fileobj).name
  }

  // ---------------------------------------------------------------------
  // ArchiveFile

  /** The name ArchiveFile hands to the base constructor when it is given a
      file object: the caller's name if truthy, else the object's own
      `name` attribute if it has one. */
  function ArchiveFileName(fileobj: Source, name: PyName): (r: PyName)
    ensures Truthy(name) ==> r == name
    ensures !Truthy(name) && ObjectName(fileobj) != NoName ==> r == ObjectName(fileobj)
    ensures r == name || r == ObjectName(fileobj)
  {
    if !Truthy(name) && ObjectName(fileobj) != NoName then ObjectName(fileobj) else name
  }

  /** `ArchiveFile(fileobj, name, closefd)`; `files` is the file system,
      consulted when only a name is given. */
  method NewArchiveFile(fileobj: Source, name: PyName, closefd: bool, files: map<string, seq<int>>)
    returns (r: Result<Archive>)
    ensures fileobj.NoSource? && !Truthy(name) ==> r == Err(TypeError("Either name, fileobj must be specified"))
    ensures fileobj.NoSource? && Truthy(name) && NameOrEmpty(name) !in files ==>
      r == Err(OSError(Some(2), "No such file or directory", NameOrEmpty(name)))
    ensures fileobj.NoSource? && Truthy(name) && NameOrEmpty(name) in files ==>
      && r.Ok? && fresh(r.value.raw) && r.value.raw.seekable
      && r.value.raw.data == files[NameOrEmpty(name)] && r.value.raw.pos == 0
      && r.value.raw.name == name && r.value.source == RawSource(r.value.raw)
      && r.value.realname == NameOrEmpty(name)
    ensures !fileobj.NoSource? ==>
      && r.Ok? && r.value.raw == Reader(fileobj) && r.value.source == fileobj
      && r.value.realname == NameOrEmpty(ArchiveFileName(fileobj, name))
    ensures r.Ok? ==>
      && r.value.kind == ArchiveFile && r.value.closefd == closefd
      && r.value.Record() == Derive(ArchiveFile, r.value.realname, SourceLayer(r.value.source), None, r.value.raw.seekable)
  {
    if fileobj.NoSource? {
      if !Truthy(name) {
        return Err(TypeError("Either name, fileobj must be specified"));
      }
      var path := NameOrEmpty(name);
      if path !in files {
        return Err(OSError(Some(2), "No such file or directory", path));
      }
      var f := new Stream(files[path], true, name);
      var a := new Archive(ArchiveFile, name, RawSource(f), RawSource(f), closefd, None);
      return Ok(a);
    }
    var a := new Archive(ArchiveFile, ArchiveFileName(fileobj, name), fileobj, fileobj, closefd, None);
    return Ok(a);
  }

  // ---------------------------------------------------------------------
  // ArchiveTemp

  /** Everything up to and including the last '/', left alone when it is
      only slashes, otherwise without its trailing slashes (posixpath.dirname). */
  function Dirname(p: string): (r: string)
    ensures |r| <= |p| && r == p[..|r|]
    ensures NoneFrom(p, '/', 0) ==> r == ""
    ensures LastIndex(p, '/').Some? ==> |r| <= LastIndex(p, '/').value + 1
  {
    var i := if LastIndex(p, '/').Some? then LastIndex(p, '/').value + 1 else 0;
    var head := p[..i];
    if head != [] && !OnlySlashes(head) then StripSlashes(head) else head
  }

  predicate OnlySlashes(s: string) {
    forall j :: 0 <= j < |s| ==> s[j] == '/'
  }

  /** `s.rstrip('/')` */
  function StripSlashes(s: string): (r: string)
    ensures |r| <= |s| && r == s[..|r|]
    ensures r == [] || r[|r| - 1] != '/'
    ensures OnlySlashes(s[|r|..])
  {
    if s == [] || s[|s| - 1] != '/' then s
    else
      var r := StripSlashes(s[..|s| - 1]);
      assert s[|r|..] == s[..|s| - 1][|r|..] + ['/'];
      r
  }

  /** The directory of `dir + "/" + base` is `dir`, for a directory without
      a trailing slash and a base without slashes. */
  lemma DirnameOfJoin(dir: string, base: string)
    requires dir != [] && dir[|dir| - 1] != '/' && NoneFrom(base, '/', 0)
    ensures Dirname(dir + "/" + base) == dir
  {
    var p := dir + "/" + base;
    var k := LastIndex(p, '/');
    assert p[|dir|] == '/';
    assert NoneFrom(p, '/', |dir| + 1) by {
      forall j | |dir| + 1 <= j < |p| ensures p[j] != '/' {
        assert p[j] == base[j - |dir| - 1];
      }
    }
    assert k.Some? && k.value == |dir|;
    var head := p[..|dir| + 1];
    assert head == dir + "/";
    assert head[|dir| - 1] != '/';
    assert head[..|dir|] == dir;
  }

  /** The directory ArchiveTemp asks for: the name's directory when the name
      is a `str` and creating there works, otherwise the default temporary
      directory (`None`). */
  function TempDir(name: PyName, creatable: bool): (r: Option<string>)
    ensures name.StrName? && creatable ==> r == Some(Dirname(name.s))
    ensures !name.StrName? || !creatable ==> r.None?
  {
    if name.StrName? && creatable then Some(Dirname(name.s)) else None
  }

  /** The name ArchiveTemp records: an archive source's realname unless a
      name is passed; any other source's own `name`, whatever is passed. */
  function TempName(fileobj: Source, name: PyName): (r: Result<PyName>)
    ensures fileobj.ArchiveSource? && name.NoName? ==> r == Ok(StrName(fileobj.archive.realname))
    ensures fileobj.ArchiveSource? && !name.NoName? ==> r == Ok(name)
    ensures !fileobj.ArchiveSource? && ObjectName(fileobj) != NoName ==> r == Ok(ObjectName(fileobj))
    ensures !fileobj.ArchiveSource? && ObjectName(fileobj) == NoName ==> r.Err? && r.exc.AttributeError?
  {
    if fileobj.ArchiveSource? then
      if name.NoName? then Ok(StrName(fileobj.archive.realname)) else Ok(name)
    else if ObjectName(fileobj) == NoName then
      Err(AttributeError("object has no attribute 'name'"))
    else
      Ok(ObjectName(fileobj))
  }

  /** The set of objects a drain of `fileobj` may change. */
  function Drained(fileobj: Source): set<object> {
    if fileobj.NoSource? then {} else {Reader(fileobj)}
  }

  /** `ArchiveTemp(fileobj, name)`: drain `fileobj` into a fresh temporary
      file at `tempPath`, rewind the copy, and wrap it.  `dir` is the
      directory the temporary file is created in (`None`: the default). */
  method NewArchiveTemp(fileobj: Source, name: PyName, creatable: bool, tempPath: string)
    returns (r: Result<Archive>, dir: Option<string>)
    requires !fileobj.NoSource? ==> Reader(fileobj).Valid()
    modifies Drained(fileobj)
    ensures TempName(fileobj, name).Err? ==>
      r == Err(TempName(fileobj, name).exc) && (!fileobj.NoSource? ==> Reader(fileobj).pos == old(Reader(fileobj).pos))
    ensures TempName(fileobj, name).Ok? ==>
      && r.Ok? && dir == TempDir(TempName(fileobj, name).value, creatable)
      && fresh(r.value.raw) && r.value.raw.Valid()
      && r.value.raw.data == old(Reader(fileobj).Remaining()) && r.value.raw.pos == 0
      && r.value.raw.seekable && r.value.raw.name == StrName(tempPath) && !r.value.raw.closed
      && Reader(fileobj).Valid() && Reader(fileobj).pos == |Reader(fileobj).data|
      && r.value.kind == ArchiveTemp && r.value.source == fileobj && r.value.closefd
      && r.value.realname == NameOrEmpty(TempName(fileobj, name).value)
      && r.value.Record() == Derive(ArchiveTemp, r.value.realname, SourceLayer(fileobj), None, true)
  {
    var chosen := TempName(fileobj, name);
    if chosen.Err? {
      return Err(chosen.exc), None;
    }
    dir := TempDir(chosen.value, creatable);
    var src := Reader(fileobj);
    var bytes := src.ReadAll();
    var temp := new Stream(bytes, true, StrName(tempPath));
    var a := new Archive(ArchiveTemp, chosen.value, RawSource(temp), fileobj, true, None);
    r := Ok(a);
  }

  // ---------------------------------------------------------------------
  // make_seekable

  /** `make_seekable(fileobj)`: the object itself when it can seek, otherwise
      an ArchiveTemp copy of it; anything that is not a file object fails
      the `io.IOBase` assertion. */
  method MakeSeekable(fileobj: Source, creatable: bool, tempPath: string) returns (r: Result<Source>)
    requires !fileobj.NoSource? ==> Reader(fileobj).Valid()
    modifies Drained(fileobj)
    ensures fileobj.NoSource? ==> r.Err? && r.exc.AssertionError?
    ensures !fileobj.NoSource? && Reader(fileobj).seekable ==>
      r == Ok(fileobj) && Reader(fileobj).pos == old(Reader(fileobj).pos)
    ensures !fileobj.NoSource? && !Reader(fileobj).seekable ==>
      && (r.Ok? <==> TempName(fileobj, NoName).Ok?)
      && (r.Err? ==> r == Err(TempName(fileobj, NoName).exc))
      && (r.Ok? ==>
            && r.value.ArchiveSource? && fresh(r.value.archive.raw)
            && r.value.archive.kind == ArchiveTemp && r.value.archive.source == fileobj
            && r.value.archive.raw.data == old(Reader(fileobj).Remaining()) && r.value.archive.raw.pos == 0)
    ensures r.Ok? ==> !r.value.NoSource? && Reader(r.value).seekable && Reader(r.value).Valid()
  {
    if fileobj.NoSource? {
      return Err(AssertionError("fileobj must be an instance of io.IOBase or a file"));
    }
    if Reader(fileobj).seekable {
      return Ok(fileobj);
    }
    var temp, _ := NewArchiveTemp(fileobj, NoName, creatable, tempPath);
    if temp.Err? {
      return Err(temp.exc);
    }
    return Ok(ArchiveSource(temp.value));
  }

  // ---------------------------------------------------------------------
  // ExternalPipe: executable lookup and the feeder thread

  /** `ENOENT`, `EPIPE` and `ESRCH` on POSIX */
  const ENOENT := 2
  const EPIPE := 32
  const ESRCH := 3

  /** The two assertions shared by the pipe constructor and its availability
      check: the base class itself and classes without `_command` are
      refused. */
  function PipeAssertions(kind: ClassId, command: Option<seq<string>>): (r: Result<seq<string>>)
    ensures r.Err? <==> kind == ExternalPipeBase || command.None?
    ensures r.Err? ==> r.exc.AssertionError?
    ensures r.Ok? ==> r.value == command.value
  {
    if kind == ExternalPipeBase then Err(AssertionError("This class can not be used in standalone"))
    else if command.None? then Err(AssertionError("_command attribute is missing"))
    else Ok(command.value)
  }

  /** The executables tried, in order: the command's program, then the
      fallbacks. */
  function Candidates(command: seq<string>, fallbacks: Option<seq<string>>): (r: seq<string>)
    requires command != []
    ensures |r| >= 1 && r[0] == command[0]
    ensures fallbacks.Some? ==> r[1..] == fallbacks.value
    ensures fallbacks.None? ==> r == [command[0]]
  {
    [command[0]] + (if fallbacks.Some? then fallbacks.value else [])
  }

  /** The paths `find_executable` returned for the candidates, in order,
      keeping only the ones found. */
  function Existing(cands: seq<string>, which: string -> Option<string>): (r: seq<string>)
    ensures |r| <= |cands|
  {
    if cands == [] then []
    else
      var w := which(cands[0]);
      (if w.Some? && w.value != "" then [w.value] else []) + Existing(cands[1..], which)
  }

  predicate Found(which: string -> Option<string>, c: string) {
    which(c).Some? && which(c).value != ""
  }

  /** The first found path is the path of the earliest candidate that is
      found, and nothing is found exactly when no candidate is. */
  lemma {:induction false} ExistingFirst(cands: seq<string>, which: string -> Option<string>)
    ensures Existing(cands, which) == [] <==> forall j :: 0 <= j < |cands| ==> !Found(which, cands[j])
    ensures Existing(cands, which) != [] ==>
      exists k :: 0 <= k < |cands| && Found(which, cands[k]) && Existing(cands, which)[0] == which(cands[k]).value
                  && forall j :: 0 <= j < k ==> !Found(which, cands[j])
  {
    if cands != [] {
      ExistingFirst(cands[1..], which);
      if !Found(which, cands[0]) {
        if Existing(cands, which) != [] {
          var k :| 0 <= k < |cands[1..]| && Found(which, cands[1..][k])
                   && Existing(cands[1..], which)[0] == which(cands[1..][k]).value
                   && forall j :: 0 <= j < k ==> !Found(which, cands[1..][j]);
          assert Found(which, cands[k + 1]);
          forall j | 0 <= j < k + 1 ensures !Found(which, cands[j]) {
            if j > 0 {
              assert cands[j] == cands[1..][j - 1];
            }
          }
        } else {
          forall j | 0 <= j < |cands| ensures !Found(which, cands[j]) {
            if j > 0 {
              assert cands[j] == cands[1..][j - 1];
            }
          }
        }
      } else {
        assert Found(which, cands[0]);
      }
    }
  }

  /** The OSError message when no candidate exists. */
  function MissingMessage(cands: seq<string>): (r: string)
    ensures |cands| == 1 ==> r == "cannot find executable"
    ensures |cands| != 1 ==> r == "cannot find executable between: " + Join(cands, ", ")
  {
    if |cands| == 1 then "cannot find executable"
    else "cannot find executable between: " + Join(cands, ", ")
  }

  /** A pipe class's class-level command table, which the availability check
      rewrites in place. */
  class PipeClass {
    const kind: ClassId
    var command: Option<seq<string>>
    const fallbacks: Option<seq<string>>

    constructor (kind: ClassId, command: Option<seq<string>>, fallbacks: Option<seq<string>>)
      ensures this.kind == kind && this.command == command && this.fallbacks == fallbacks
    {
      this.kind := kind;
      this.command := command;
      this.fallbacks := fallbacks;
    }

    /** `ExternalPipe._check_availability`: after the assertions, look the
        candidates up in order; raise OSError(2, ...) when none exists, else
        put the first found path in place of the command's program. */
    method CheckAvailability(which: string -> Option<string>) returns (r: Result<string>)
      modifies this`command
      ensures PipeAssertions(kind, old(command)).Err? ==>
        r == Err(PipeAssertions(kind, old(command)).exc) && command == old(command)
      ensures PipeAssertions(kind, old(command)).Ok? && old(command).value == [] ==>
        r == Err(IndexError) && command == old(command)
      ensures PipeAssertions(kind, old(command)).Ok? && old(command).value != [] ==>
        var cands := Candidates(old(command).value, fallbacks);
        && (Existing(cands, which) == [] ==>
              r == Err(OSError(Some(ENOENT), cands[0], MissingMessage(cands))) && command == old(command))
        && (Existing(cands, which) != [] ==>
              r == Ok(Existing(cands, which)[0])
              && command == Some([Existing(cands, which)[0]] + old(command).value[1..]))
    {
      var checked := PipeAssertions(kind, command);
      if checked.Err? {
        return Err(checked.exc);
      }
      var argv := checked.value;
      if argv == [] {
        return Err(IndexError);
      }
      var cands := Candidates(argv, fallbacks);
      var existing := Existing(cands, which);
      if existing == [] {
        return Err(OSError(Some(ENOENT), cands[0], MissingMessage(cands)));
      }
      command := Some([existing[0]] + argv[1..]);
      return Ok(existing[0]);
    }
  }

  /** `check_output` and the explicit `p.wait()` checks: a non-zero exit
      status raises CalledProcessError carrying that status. */
  function CheckExit(code: int): (r: Result<()>)
    ensures r.Ok? <==> code == 0
    ensures r.Err? ==> r.exc == CalledProcessError(code)
  {
    if code == 0 then Ok(()) else Err(CalledProcessError(code))
  }

  /** The feeder thread's ending. `raised` is None when the copy finished,
      and otherwise the `errno` of the IOError it raised, itself None when
      the error carries none. A broken pipe (the reader went away) is
      swallowed; any other I/O error, one without an errno included, is
      raised again. */
  function FeederOutcome(raised: Option<Option<int>>): (r: Result<()>)
    ensures r.Ok? <==> raised.None? || raised.value == Some(EPIPE)
    ensures r.Err? ==> r.exc.OSError? && r.exc.errno == raised.value
  {
    if raised.None? || raised.value == Some(EPIPE) then Ok(()) else Err(OSError(raised.value, "", ""))
  }

  /** `ExternalPipe.close`'s terminate step, with `raised` as for
      `FeederOutcome`: a process that is already gone is not an error;
      anything else, an OSError without an errno included, is raised
      again. */
  function TerminateOutcome(raised: Option<Option<int>>): (r: Result<()>)
    ensures r.Ok? <==> raised.None? || raised.value == Some(ESRCH)
    ensures r.Err? ==> r.exc.OSError? && r.exc.errno == raised.value
  {
    if raised.None? || raised.value == Some(ESRCH) then Ok(()) else Err(OSError(raised.value, "", ""))
  }
}
