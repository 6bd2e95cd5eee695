/**
 * Unrar: a rar container read through the `rar`/`unrar` tool.  The tool's
 * technical listing (`vta`) is split into blank-line separated hunks:
 * general information, the archive header, then one hunk per member.
 */
module Rar {

  import opened Errors
  import opened Text
  import opened Numerals
  import opened Streams
  import opened ArchiveCore
  import opened Helpers
  import Listing

  const Tag := "rar"
  const Command: seq<string> := ["rar"]
  const Fallbacks: seq<string> := ["unrar"]

  const Decl := ClassDecl(Some(["application/x-rar"]), Some(["rar"]), Some(Tag), false, Some(Command), Some(Fallbacks), true)

  // ---------------------------------------------------------------------
  // Hunks, header and members

  function Info(hunk: string): map<string, string> {
    Listing.Info(hunk, ':')
  }

  /** The hunk that closes the listing: its `service` field is "EOF". */
  predicate IsEofHunk(hunk: string) {
    "service" in Info(hunk) && Info(hunk)["service"] == "EOF"
  }

  /** rar's `parse_hunk`: the hunk's pairs, or StopIteration for the hunk
      that closes the listing. */
  method ParseHunk(hunk: string) returns (r: Result<map<string, string>>)
    ensures IsEofHunk(hunk) ==> r == Err(StopIteration)
    ensures !IsEofHunk(hunk) ==> r == Ok(Info(hunk))
  {
    var info := Listing.ParseHunk(hunk, ':');
    if "service" in info && info["service"] == "EOF" {
      return Err(StopIteration);
    }
    return Ok(info);
  }

  datatype Header = Header(details: string)

  /** `Header(hunk)`: the `details` field must mention RAR. */
  function ParseHeader(hunk: string): (r: Result<Header>)
    ensures IsEofHunk(hunk) ==> r == Err(StopIteration)
    ensures !IsEofHunk(hunk) && "details" !in Info(hunk) ==> r.Err? && r.exc.AttributeError?
    ensures !IsEofHunk(hunk) && "details" in Info(hunk) ==>
      (r.Ok? <==> Find(Info(hunk)["details"], "RAR").Some?)
    ensures r.Err? && !IsEofHunk(hunk) && "details" in Info(hunk) ==> r.exc.AssertionError?
    ensures r.Ok? ==> r.value.details == Info(hunk)["details"]
  {
    var info := Info(hunk);
    if IsEofHunk(hunk) then Err(StopIteration)
    else if "details" !in info then Err(AttributeError("'Header' object has no attribute 'details'"))
    else if Find(info["details"], "RAR").None? then Err(AssertionError("Maybe not a RAR file"))
    else Ok(Header(info["details"]))
  }

  /** A member's fields: `type` is absent when the hunk has no such line. */
  datatype Member = Member(filename: string, size: int, packedSize: int, crc32: nat, typ: Option<string>)

  /** `int(info.get(key, 0))` */
  function IntOrZero(info: map<string, string>, key: string): (r: Result<int>)
    ensures key !in info ==> r == Ok(0)
    ensures key in info ==> r == ParseInt(info[key])
  {
    if key in info then ParseInt(info[key]) else Ok(0)
  }

  /** `Member(hunk)`: the name is required, the sizes default to 0, and the
      crc32 field is four hex-encoded bytes folded big-endian. */
  function ParseMember(hunk: string): (r: Result<Member>)
    ensures IsEofHunk(hunk) ==> r == Err(StopIteration)
    ensures !IsEofHunk(hunk) && "name" !in Info(hunk) ==> r == Err(KeyError("name"))
    ensures r.Err? && r.exc == StopIteration ==> IsEofHunk(hunk)
    ensures r.Ok? ==> "name" in Info(hunk) && r.value.filename == Info(hunk)["name"]
    ensures r.Ok? ==> IntOrZero(Info(hunk), "size") == Ok(r.value.size)
    ensures r.Ok? ==> IntOrZero(Info(hunk), "packed_size") == Ok(r.value.packedSize)
    ensures r.Ok? ==> "crc32" in Info(hunk) && Crc32FromHex(Info(hunk)["crc32"]) == Ok(r.value.crc32)
    ensures r.Ok? ==> r.value.crc32 < 0x1_0000_0000
    ensures r.Ok? ==> r.value.typ == (if "type" in Info(hunk) then Some(Info(hunk)["type"]) else None)
  {
    var info := Info(hunk);
    if IsEofHunk(hunk) then Err(StopIteration)
    else if "name" !in info then Err(KeyError("name"))
    else
      var size := IntOrZero(info, "size");
      var packed := IntOrZero(info, "packed_size");
      if size.Err? then Err(size.exc)
      else if packed.Err? then Err(packed.exc)
      else if "crc32" !in info then Err(KeyError("crc32"))
      else
        var crc := Crc32FromHex(info["crc32"]);
        if crc.Err? then Err(crc.exc)
        else Ok(Member(info["name"], size.value, packed.value, crc.value,
                       if "type" in info then Some(info["type"]) else None))
  }

  /** `isfile()`; a member without a `type` line has no such attribute. */
  function IsFile(m: Member): (r: Result<bool>)
    ensures r.Ok? <==> m.typ.Some?
    ensures r.Ok? ==> (r.value <==> m.typ.value == "File")
  {
    if m.typ.None? then Err(AttributeError("'Member' object has no attribute 'type'"))
    else Ok(m.typ.value == "File")
  }

  /** `isdir()` */
  function IsDir(m: Member): (r: Result<bool>)
    ensures r.Ok? <==> m.typ.Some?
    ensures r.Ok? ==> (r.value <==> m.typ.value == "Directory")
  {
    if m.typ.None? then Err(AttributeError("'Member' object has no attribute 'type'"))
    else Ok(m.typ.value == "Directory")
  }

  /** No member is both a file and a directory. */
  lemma NeverFileAndDirectory(m: Member)
    ensures !(IsFile(m) == Ok(true) && IsDir(m) == Ok(true))
  {
  }

  function Filenames(ms: seq<Member>): (r: seq<string>)
    ensures |r| == |ms|
    ensures forall i :: 0 <= i < |ms| ==> r[i] == ms[i].filename
  {
    if ms == [] then [] else [ms[0].filename] + Filenames(ms[1..])
  }

  // ---------------------------------------------------------------------
  // The member list

  /** The member hunks as the generator was written to read them: one member
      per hunk, ending at the hunk that closes the listing. */
  function Members(hunks: seq<string>): (r: Result<seq<Member>>)
    ensures r.Ok? ==> |r.value| <= |hunks|
    ensures r.Err? ==> exists i :: FirstBadHunk(hunks, i) && ParseMember(hunks[i]) == Err(r.exc)
  {
    if hunks == [] || IsEofHunk(hunks[0]) then Ok([])
    else
      var m := ParseMember(hunks[0]);
      if m.Err? then
        assert FirstBadHunk(hunks, 0);
        Err(m.exc)
      else
        var rest := Members(hunks[1..]);
        if rest.Err? then
          var k :| FirstBadHunk(hunks[1..], k) && ParseMember(hunks[1..][k]) == Err(rest.exc);
          BadHunkBehindMember(hunks, k);
          Err(rest.exc)
        else Ok([m.value] + rest.value)
  }

  /** Hunk `i` is the first that fails to parse, and no hunk before it
      closes the listing. */
  predicate FirstBadHunk(hunks: seq<string>, i: int) {
    0 <= i < |hunks| && !IsEofHunk(hunks[i]) && ParseMember(hunks[i]).Err?
    && forall j :: 0 <= j < i ==> !IsEofHunk(hunks[j]) && ParseMember(hunks[j]).Ok?
  }

  /** The first bad hunk of the tail, behind a member hunk, is the first
      bad hunk of the whole, one position further. */
  lemma BadHunkBehindMember(hunks: seq<string>, k: int)
    requires hunks != [] && !IsEofHunk(hunks[0]) && ParseMember(hunks[0]).Ok?
    requires FirstBadHunk(hunks[1..], k)
    ensures FirstBadHunk(hunks, k + 1) && hunks[k + 1] == hunks[1..][k]
  {
    forall j | 0 < j < k + 1 ensures !IsEofHunk(hunks[j]) && ParseMember(hunks[j]).Ok? {
      assert hunks[j] == hunks[1..][j - 1];
    }
  }

  /** Without a closing hunk and with every hunk parsing, every hunk is a
      member. */
  lemma {:induction false} MembersWithoutClosingHunk(hunks: seq<string>)
    requires forall j :: 0 <= j < |hunks| ==> !IsEofHunk(hunks[j]) && ParseMember(hunks[j]).Ok?
    ensures Members(hunks).Ok? && |Members(hunks).value| == |hunks|
  {
    if hunks != [] {
      ParsedTailWithoutClosingHunk(hunks);
      MembersWithoutClosingHunk(hunks[1..]);
    }
  }

  /** The tail of hunks that all parse without a closing hunk is alike. */
  lemma ParsedTailWithoutClosingHunk(hunks: seq<string>)
    requires hunks != []
    requires forall j :: 0 <= j < |hunks| ==> !IsEofHunk(hunks[j]) && ParseMember(hunks[j]).Ok?
    ensures forall j :: 0 <= j < |hunks[1..]| ==> !IsEofHunk(hunks[1..][j]) && ParseMember(hunks[1..][j]).Ok?
  {
    forall j | 0 <= j < |hunks[1..]| ensures !IsEofHunk(hunks[1..][j]) && ParseMember(hunks[1..][j]).Ok? {
      assert hunks[1..][j] == hunks[j + 1];
    }
  }

  /** Each member read is the parse of the hunk at its position. */
  lemma {:induction false} MembersParsed(hunks: seq<string>)
    requires Members(hunks).Ok?
    ensures forall i :: 0 <= i < |Members(hunks).value| ==> ParseMember(hunks[i]) == Ok(Members(hunks).value[i])
  {
    if hunks != [] && !IsEofHunk(hunks[0]) {
      var ms := Members(hunks).value;
      var rest := Members(hunks[1..]).value;
      MembersParsed(hunks[1..]);
      assert ms == [ParseMember(hunks[0]).value] + rest;
      ParsedHead(hunks, ms[0], rest);
    }
  }

  /** Members parsed from the tail, behind one parsed from the head, are
      the parses of the hunks at their positions. */
  lemma ParsedHead(hunks: seq<string>, first: Member, rest: seq<Member>)
    requires hunks != [] && |rest| < |hunks|
    requires ParseMember(hunks[0]) == Ok(first)
    requires forall i :: 0 <= i < |rest| ==> ParseMember(hunks[1..][i]) == Ok(rest[i])
    ensures forall i :: 0 <= i < |[first] + rest| ==> ParseMember(hunks[i]) == Ok(([first] + rest)[i])
  {
    forall i | 0 < i < |[first] + rest| ensures ParseMember(hunks[i]) == Ok(([first] + rest)[i]) {
      assert hunks[1..][i - 1] == hunks[i];
    }
  }

  /** The member hunks as the code runs on Python 3.7 and later: the
      StopIteration raised for the closing hunk inside the generator
      expression is turned into RuntimeError (PEP 479). */
  function MembersAsWritten(hunks: seq<string>): Result<seq<Member>> {
    if hunks == [] then Ok([])
    else
      var m := ParseMember(hunks[0]);
      if m.Err? then
        if m.exc == StopIteration then Err(RuntimeError("generator raised StopIteration")) else Err(m.exc)
      else
        var rest := MembersAsWritten(hunks[1..]);
        if rest.Err? then Err(rest.exc) else Ok([m.value] + rest.value)
  }

  /** Whenever member hunks are followed by the closing hunk, the intended
      reading returns exactly the members before it, while the code as
      written raises RuntimeError. */
  lemma {:induction false} ClosingHunkBreaksAsWritten(hunks: seq<string>, k: nat)
    requires k < |hunks| && IsEofHunk(hunks[k])
    requires forall j :: 0 <= j < k ==> ParseMember(hunks[j]).Ok?
    ensures MembersAsWritten(hunks) == Err(RuntimeError("generator raised StopIteration"))
    ensures Members(hunks).Ok? && |Members(hunks).value| == k
  {
    if k == 0 {
      ClosingHunkFirst(hunks);
    } else {
      ParsedTail(hunks, k);
      assert hunks[1..][k - 1] == hunks[k];
      ClosingHunkBreaksAsWritten(hunks[1..], k - 1);
      FailureBehindMember(hunks);
    }
  }

  /** A closing hunk in front: no members, and RuntimeError as written. */
  lemma ClosingHunkFirst(hunks: seq<string>)
    requires hunks != [] && IsEofHunk(hunks[0])
    ensures MembersAsWritten(hunks) == Err(RuntimeError("generator raised StopIteration"))
    ensures Members(hunks) == Ok([])
  {
  }

  /** A member hunk in front of a tail the code as written fails on, and
      the intended reading reads, changes neither outcome but the count. */
  lemma FailureBehindMember(hunks: seq<string>)
    requires hunks != [] && ParseMember(hunks[0]).Ok?
    requires MembersAsWritten(hunks[1..]).Err? && Members(hunks[1..]).Ok?
    ensures MembersAsWritten(hunks) == MembersAsWritten(hunks[1..])
    ensures Members(hunks).Ok? && |Members(hunks).value| == |Members(hunks[1..]).value| + 1
  {
    assert !IsEofHunk(hunks[0]);
  }

  /** Hunks that parse before position `k` still parse, one position
      earlier, in the tail. */
  lemma ParsedTail(hunks: seq<string>, k: nat)
    requires 0 < k <= |hunks|
    requires forall j :: 0 <= j < k ==> ParseMember(hunks[j]).Ok?
    ensures forall j :: 0 <= j < k - 1 ==> ParseMember(hunks[1..][j]).Ok?
  {
    forall j | 0 <= j < k - 1 ensures ParseMember(hunks[1..][j]).Ok? {
      assert hunks[1..][j] == hunks[j + 1];
    }
  }

  /** Without a closing hunk both readings agree. */
  lemma {:induction false} AgreeWithoutClosingHunk(hunks: seq<string>)
    requires forall j :: 0 <= j < |hunks| ==> !IsEofHunk(hunks[j])
    ensures MembersAsWritten(hunks) == Members(hunks)
  {
    if hunks != [] {
      assert !IsEofHunk(hunks[0]);
      var m := ParseMember(hunks[0]);
      if m.Ok? {
        forall j | 0 <= j < |hunks[1..]| ensures !IsEofHunk(hunks[1..][j]) {
          assert hunks[1..][j] == hunks[j + 1];
        }
        AgreeWithoutClosingHunk(hunks[1..]);
      } else {
        assert m.exc != StopIteration;
      }
    }
  }

  lemma EofLacksNewline()
    ensures Lacks("EOF", '\n')
  {
    var e := "EOF";
    forall i | 0 <= i < |e| ensures e[i] != '\n' {
      assert e[i] == 'E' || e[i] == 'O' || e[i] == 'F';
    }
  }

  lemma EofTrimmed()
    ensures !IsBlank("EOF"[0]) && !IsBlank("EOF"[|"EOF"| - 1])
  {
  }

  lemma EofLineLacksNewline(key: string, pad1: string, pad2: string)
    requires Lacks(key, '\n') && Listing.AllBlank(pad1) && Listing.AllBlank(pad2)
    ensures Lacks(key + pad1 + [':'] + pad2 + "EOF", '\n')
  {
    EofLacksNewline();
    LacksConcat(key, pad1, '\n');
    LacksConcat(key + pad1, [':'], '\n');
    LacksConcat(key + pad1 + [':'], pad2, '\n');
    LacksConcat(key + pad1 + [':'] + pad2, "EOF", '\n');
  }

  /** A one-line hunk "<key>: EOF" whose key normalises to "service"
      closes the listing. */
  lemma EofLineCloses(key: string, pad1: string, pad2: string)
    requires key != [] && !IsBlank(key[0]) && !IsBlank(key[|key| - 1])
    requires forall i :: 0 <= i < |key| ==> key[i] != ':' && key[i] != '\n'
    requires Listing.AllBlank(pad1) && Listing.AllBlank(pad2)
    requires Listing.NormalizeKey(key) == "service"
    ensures IsEofHunk(key + pad1 + [':'] + pad2 + "EOF")
  {
    var line := key + pad1 + [':'] + pad2 + "EOF";
    EofTrimmed();
    Listing.ParseLineRoundTrip(key, pad1, ':', pad2, "EOF");
    EofLineLacksNewline(key, pad1, pad2);
    Listing.SingleLineInfo(line, ':', key, "EOF");
  }

  /** "Service: EOF", the closing hunk of a real listing, is recognised. */
  lemma ServiceEofCloses()
    ensures IsEofHunk("Service: EOF")
  {
    ServiceKey();
    EofLineCloses("Service", "", " ");
    assert "Service" + "" + [':'] + " " + "EOF" == "Service: EOF";
  }

  lemma ServiceKey()
    ensures Listing.NormalizeKey("Service") == "service"
  {
    var k := Listing.NormalizeKey("Service");
    assert k[0] == 's' && k[1] == 'e' && k[2] == 'r' && k[3] == 'v' && k[4] == 'i' && k[5] == 'c' && k[6] == 'e';
  }

  // ---------------------------------------------------------------------
  // The listing as a whole

  /** The listing split on blank lines: information, header, then members.
      Fewer than two hunks makes the second `next()` raise StopIteration. */
  function ReadListing(output: string): (r: Result<(Header, seq<Member>)>)
    ensures |Split(output, "\n\n")| < 2 ==> r == Err(StopIteration)
    ensures r.Ok? ==> ParseHeader(Split(output, "\n\n")[1]) == Ok(r.value.0)
    ensures r.Ok? ==> Members(Split(output, "\n\n")[2..]) == Ok(r.value.1)
  {
    var hunks := Split(output, "\n\n");
    if |hunks| < 2 then Err(StopIteration)
    else
      var header := ParseHeader(hunks[1]);
      if header.Err? then Err(header.exc)
      else
        var members := Members(hunks[2..]);
        if members.Err? then Err(members.exc) else Ok((header.value, members.value))
  }

  /** The same, with the member list read as the code is written. */
  function ReadListingAsWritten(output: string): Result<(Header, seq<Member>)> {
    var hunks := Split(output, "\n\n");
    if |hunks| < 2 then Err(StopIteration)
    else
      var header := ParseHeader(hunks[1]);
      if header.Err? then Err(header.exc)
      else
        var members := MembersAsWritten(hunks[2..]);
        if members.Err? then Err(members.exc) else Ok((header.value, members.value))
  }

  /** A listing whose member hunks end with a closing hunk is read by the
      intended parser and refused with RuntimeError by the code as written. */
  lemma ListingWithClosingHunk(output: string, k: nat)
    requires |Split(output, "\n\n")| >= 2 && ParseHeader(Split(output, "\n\n")[1]).Ok?
    requires k < |Split(output, "\n\n")[2..]| && IsEofHunk(Split(output, "\n\n")[2..][k])
    requires forall j :: 0 <= j < k ==> ParseMember(Split(output, "\n\n")[2..][j]).Ok?
    ensures ReadListing(output).Ok? && |ReadListing(output).value.1| == k
    ensures ReadListingAsWritten(output) == Err(RuntimeError("generator raised StopIteration"))
  {
    ClosingHunkBreaksAsWritten(Split(output, "\n\n")[2..], k);
  }

  /** Without a closing hunk among the member hunks, the listing reads the
      same as the code is written. */
  lemma ListingAgreesWithoutClosingHunk(output: string)
    requires forall j :: 2 <= j < |Split(output, "\n\n")| ==> !IsEofHunk(Split(output, "\n\n")[j])
    ensures ReadListingAsWritten(output) == ReadListing(output)
  {
    var hunks := Split(output, "\n\n");
    if |hunks| >= 2 {
      forall j | 0 <= j < |hunks[2..]| ensures !IsEofHunk(hunks[2..][j]) {
        assert hunks[2..][j] == hunks[j + 2];
      }
      AgreeWithoutClosingHunk(hunks[2..]);
    }
  }

  // ---------------------------------------------------------------------
  // Command lines

  /** `cmd + ['vta', temp]`: the technical listing. */
  function ListArgv(cmd: seq<string>, temp: string): (r: seq<string>)
    ensures |r| == |cmd| + 2 && r[..|cmd|] == cmd && r[|cmd|..] == ["vta", temp]
  {
    cmd + ["vta", temp]
  }

  /** `cmd + ['p', '-ierr', temp, member]`: a member to standard output. */
  function OpenArgv(cmd: seq<string>, temp: string, member: string): (r: seq<string>)
    ensures |r| == |cmd| + 4 && r[..|cmd|] == cmd && r[|cmd|..] == ["p", "-ierr", temp, member]
  {
    cmd + ["p", "-ierr", temp, member]
  }

  /** `cmd + ['x', temp, member, path]` */
  function ExtractArgv(cmd: seq<string>, temp: string, member: string, path: string): (r: seq<string>)
    ensures |r| == |cmd| + 4 && r[..|cmd|] == cmd && r[|cmd|..] == ["x", temp, member, path]
  {
    cmd + ["x", temp, member, path]
  }

  /** `cmd + ['x', temp] + names + [path]`: the names in order, the
      destination last. */
  function ExtractAllArgv(cmd: seq<string>, temp: string, names: seq<string>, path: string): (r: seq<string>)
    ensures |r| == |cmd| + |names| + 3
    ensures r[..|cmd|] == cmd && r[|cmd|..|cmd| + 2] == ["x", temp]
    ensures r[|cmd| + 2..|r| - 1] == names && r[|r| - 1] == path
  {
    cmd + ["x", temp] + names + [path]
  }

  /** `open(member)` on an archive of several members: the member's bytes,
      copied out of the pipe, unless the tool exits non-zero. */
  function OpenMember(cmd: seq<string>, temp: string, member: string,
                      pipe: seq<string> -> seq<int>, status: seq<string> -> int): (r: Result<seq<int>>)
    ensures r.Ok? <==> status(OpenArgv(cmd, temp, member)) == 0
    ensures r.Ok? ==> r.value == pipe(OpenArgv(cmd, temp, member))
    ensures r.Err? ==> r.exc == CalledProcessError(status(OpenArgv(cmd, temp, member)))
  {
    var code := CheckExit(status(OpenArgv(cmd, temp, member)));
    if code.Err? then Err(code.exc) else Ok(pipe(OpenArgv(cmd, temp, member)))
  }

  /** `extract(member, path)`: run the tool, a non-zero status raises. */
  function Extract(cmd: seq<string>, temp: string, member: string, path: string,
                   status: seq<string> -> int): (r: Result<()>)
    ensures r.Ok? <==> status(ExtractArgv(cmd, temp, member, path)) == 0
    ensures r.Err? ==> r.exc == CalledProcessError(status(ExtractArgv(cmd, temp, member, path)))
  {
    CheckExit(status(ExtractArgv(cmd, temp, member, path)))
  }

  /** `extractall(path, members)` */
  function ExtractAll(cmd: seq<string>, temp: string, names: seq<string>, path: string,
                      status: seq<string> -> int): (r: Result<()>)
    ensures r.Ok? <==> status(ExtractAllArgv(cmd, temp, names, path)) == 0
    ensures r.Err? ==> r.exc == CalledProcessError(status(ExtractAllArgv(cmd, temp, names, path)))
  {
    CheckExit(status(ExtractAllArgv(cmd, temp, names, path)))
  }

  // ---------------------------------------------------------------------
  // The tool's version

  /** The end of the run of digits starting at `i`. */
  function DigitsEnd(s: string, i: nat): (r: nat)
    requires i <= |s|
    ensures i <= r <= |s| && AllDigits(s[i..r])
    ensures r < |s| ==> !IsDigit(s[r])
    decreases |s| - i
  {
    if i < |s| && IsDigit(s[i]) then
      var r := DigitsEnd(s, i + 1);
      assert s[i..r] == [s[i]] + s[i + 1..r];
      r
    else i
  }

  /** `RAR (\d+\.\d+)` matched at index `i`, as (major, minor). */
  function VersionAt(s: string, i: nat): Option<(nat, nat)>
    requires i <= |s|
  {
    if !StartsWith(s[i..], "RAR ") then None
    else
      var e1 := DigitsEnd(s, i + 4);
      if e1 == i + 4 || e1 == |s| || s[e1] != '.' then None
      else
        var e2 := DigitsEnd(s, e1 + 1);
        if e2 == e1 + 1 then None
        else Some((DigitsValue(s[i + 4..e1]), DigitsValue(s[e1 + 1..e2])))
  }

  /** `re.search("(?:UN)?RAR (\d+\.\d+)", banner)`: the leftmost match
      (an "UN" prefix does not change the captured version). */
  function BannerVersion(s: string, i: nat): Option<(nat, nat)>
    requires i <= |s|
    decreases |s| - i
  {
    if VersionAt(s, i).Some? then VersionAt(s, i)
    else if i == |s| then None
    else BannerVersion(s, i + 1)
  }

  /** `version >= (5, 0)` in tuple order. */
  predicate Supported(v: (nat, nat)) {
    v.0 > 5 || (v.0 == 5 && v.1 >= 0)
  }

  /** A banner that starts "RAR <a>.<b>" reports version (a, b). */
  lemma BannerRoundTrip(a: nat, b: nat, rest: string)
    requires rest == [] || !IsDigit(rest[0])
    ensures BannerVersion("RAR " + Decimal(a) + "." + Decimal(b) + rest, 0) == Some((a, b))
  {
    VersionLayout(Decimal(a), Decimal(b), rest);
    DecimalValue(a);
    DecimalValue(b);
  }

  /** "RAR <digits>.<digits>" followed by a non-digit is a version match. */
  lemma VersionLayout(da: string, db: string, rest: string)
    requires da != [] && db != [] && AllDigits(da) && AllDigits(db)
    requires rest == [] || !IsDigit(rest[0])
    ensures VersionAt("RAR " + da + "." + db + rest, 0) == Some((DigitsValue(da), DigitsValue(db)))
  {
    var s := "RAR " + da + "." + db + rest;
    assert s[0..][..4] == "RAR ";
    DigitsEndIs(s, 4, 4 + |da|);
    assert s[4 + |da|] == '.';
    DigitsEndIs(s, 5 + |da|, 5 + |da| + |db|);
    assert s[4..4 + |da|] == da;
    assert s[5 + |da|..5 + |da| + |db|] == db;
  }

  lemma {:induction false} DigitsEndIs(s: string, i: nat, e: nat)
    requires i <= e <= |s|
    requires forall j :: i <= j < e ==> IsDigit(s[j])
    requires e == |s| || !IsDigit(s[e])
    ensures DigitsEnd(s, i) == e
    decreases e - i
  {
    if i < e {
      DigitsEndIs(s, i + 1, e);
    }
  }

  /** Tuple order against (5, 0) is "major version at least 5". */
  lemma SupportedIsMajorFive(v: (nat, nat))
    ensures Supported(v) <==> v.0 >= 5
  {
  }

  /** The version rendered as Python prints the tuple: "(a, b)". */
  function VersionText(v: (nat, nat)): string {
    "(" + Decimal(v.0) + ", " + Decimal(v.1) + ")"
  }

  /** The version check on what `program` printed: the run's own error, an
      AssertionError when no version can be read or when it is below 5.0,
      otherwise the version. */
  function VersionCheck(program: string, banner: Result<string>): (r: Result<(nat, nat)>)
    ensures banner.Err? ==> r == Err(banner.exc)
    ensures banner.Ok? && BannerVersion(banner.value, 0).None? ==>
      r == Err(AssertionError(program + ": can not determine version"))
    ensures banner.Ok? && BannerVersion(banner.value, 0).Some? ==>
      var v := BannerVersion(banner.value, 0).value;
      r == if v.0 >= 5 then Ok(v) else Err(AssertionError(program + ": incompatible version " + VersionText(v)))
  {
    if banner.Err? then Err(banner.exc)
    else
      var v := BannerVersion(banner.value, 0);
      if v.None? then Err(AssertionError(program + ": can not determine version"))
      else if !Supported(v.value) then Err(AssertionError(program + ": incompatible version " + VersionText(v.value)))
      else Ok(v.value)
  }

  /** The program is looked up as "rar" first and "unrar" second: the first
      one found is used, and when neither is found the message names both. */
  lemma Availability(which: string -> Option<string>)
    ensures Candidates(Command, Decl.fallbacks) == ["rar", "unrar"]
    ensures MissingMessage(["rar", "unrar"]) == "cannot find executable between: rar, unrar"
    ensures Found(which, "rar") ==> Existing(["rar", "unrar"], which) == [which("rar").value] + Existing(["unrar"], which)
    ensures !Found(which, "rar") ==> Existing(["rar", "unrar"], which) == Existing(["unrar"], which)
    ensures Existing(["unrar"], which) == if Found(which, "unrar") then [which("unrar").value] else []
  {
    assert Join(["rar", "unrar"], ", ") == "rar" + ", " + Join(["unrar"], ", ");
    assert ["rar", "unrar"][1..] == ["unrar"];
    assert ["unrar"][1..] == [];
  }

  /** `Unrar._check_availability`: the pipe lookup (which rewrites the
      class's program to the first candidate found), then the version check
      on the banner the rewritten program prints. */
  method CheckAvailability(pc: PipeClass, which: string -> Option<string>,
                           run: seq<string> -> Result<string>) returns (r: Result<(nat, nat)>)
    requires pc.kind == Unrar
    modifies pc
    ensures PipeAssertions(pc.kind, old(pc.command)).Err? ==>
      r == Err(PipeAssertions(pc.kind, old(pc.command)).exc) && pc.command == old(pc.command)
    ensures PipeAssertions(pc.kind, old(pc.command)).Ok? && old(pc.command).value == [] ==>
      r == Err(IndexError) && pc.command == old(pc.command)
    ensures PipeAssertions(pc.kind, old(pc.command)).Ok? && old(pc.command).value != [] ==>
      var cands := Candidates(old(pc.command).value, pc.fallbacks);
      && (Existing(cands, which) == [] ==>
            r == Err(OSError(Some(ENOENT), cands[0], MissingMessage(cands))) && pc.command == old(pc.command))
      && (Existing(cands, which) != [] ==>
            pc.command == Some([Existing(cands, which)[0]] + old(pc.command).value[1..])
            && r == VersionCheck(Existing(cands, which)[0], run(pc.command.value)))
  {
    var found := pc.CheckAvailability(which);
    if found.Err? {
      return Err(found.exc);
    }
    var program := pc.command.value[0];
    var banner := run(pc.command.value);
    if banner.Err? {
      return Err(banner.exc);
    }
    var v := BannerVersion(banner.value, 0);
    if v.None? {
      return Err(AssertionError(program + ": can not determine version"));
    }
    if !Supported(v.value) {
      return Err(AssertionError(program + ": incompatible version " + VersionText(v.value)));
    }
    return Ok(v.value);
  }

  // ---------------------------------------------------------------------
  // The container

  class Unrar {
    const base: Archive
    /** the temporary copy the tool reads */
    const temp: Archive
    const header: Header
    const members: seq<Member>
    /** `_stream`: the archive stands for its only member, piped from the tool */
    const stream: bool

    ghost predicate Valid() {
      !stream ==> base.raw == temp.raw && temp.closefd
    }

    constructor (base: Archive, temp: Archive, header: Header, members: seq<Member>, stream: bool)
      ensures this.base == base && this.temp == temp && this.header == header
      ensures this.members == members && this.stream == stream
    {
      this.base := base;
      this.temp := temp;
      this.header := header;
      this.members := members;
      this.stream := stream;
    }

    /** `Unrar.__init__`: copy the input to a temporary file (always), list
        it with the tool, read header and members, then present the only
        member (piped from the tool) or the whole copy rewound to its
        start.  `run` gives the tool's output for a command line and `pipe`
        the bytes a command line writes to standard output. */
    static method New(name: string, fileobj: Source, command: seq<string>,
                      run: seq<string> -> Result<string>, pipe: seq<string> -> seq<int>,
                      creatable: bool, tempPath: string) returns (r: Result<Unrar>)
      requires !fileobj.NoSource? ==> Reader(fileobj).Valid()
      modifies Drained(fileobj)
      ensures TempName(fileobj, NoName).Err? ==> r == Err(TempName(fileobj, NoName).exc)
      ensures TempName(fileobj, NoName).Ok? ==>
        (r.Ok? <==> run(ListArgv(command, tempPath)).Ok? && ReadListing(run(ListArgv(command, tempPath)).value).Ok?)
      ensures r.Ok? ==>
        var listing := ReadListing(run(ListArgv(command, tempPath)).value).value;
        var p := Collapse(Tag, name, Filenames(listing.1), true);
        var u := r.value;
        && u.Valid() && u.header == listing.0 && u.members == listing.1 && u.stream == p.single
        && u.base.kind == Unrar && u.base.source == fileobj && u.base.realname == p.realname
        && u.base.Record() == Derive(Unrar, p.realname, SourceLayer(fileobj), Some(p.tag), !p.single)
        && fresh(u.temp.raw) && u.temp.raw.data == old(Reader(fileobj).Remaining())
        && (p.single ==> fresh(u.base.raw) && !u.base.raw.closed
                         && u.base.raw.data == pipe(OpenArgv(command, tempPath, listing.1[0].filename)))
        && (!p.single ==> u.base.raw.pos == 0)
    {
      var t, _ := NewArchiveTemp(fileobj, NoName, creatable, tempPath);
      if t.Err? {
        return Err(t.exc);
      }
      var temp := t.value;
      var output := run(ListArgv(command, tempPath));
      if output.Err? {
        return Err(output.exc);
      }
      var listing := ReadListing(output.value);
      if listing.Err? {
        return Err(listing.exc);
      }
      var p := Collapse(Tag, name, Filenames(listing.value.1), true);
      var content: Source;
      if p.single {
        var out := new Stream(pipe(OpenArgv(command, tempPath, listing.value.1[0].filename)), false, NoName);
        content := RawSource(out);
      } else {
        temp.raw.Seek(0);
        content := ArchiveSource(temp);
      }
      var base := new Archive(Unrar, StrName(p.realname), content, fileobj, true, Some(p.tag));
      var u := new Unrar(base, temp, listing.value.0, listing.value.1, p.single);
      return Ok(u);
    }

    /** `closed`: the pipe's state for a single member, the copy's otherwise. */
    function Closed(): bool
      reads base.raw
    {
      base.raw.closed
    }

    /** `close()`: close the pipe (if still open) or the temporary copy;
        either way the archive ends closed. */
    method Close()
      requires Valid()
      modifies base.raw
      ensures Closed()
      ensures base.raw.pos == old(base.raw.pos)
    {
      if stream {
        if !base.raw.closed {
          base.raw.Close();
        }
      } else {
        temp.Close();
      }
    }
  }
}
