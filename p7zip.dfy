/**
 * Un7z: a 7z container read through the `7zr` tool.  The tool's technical
 * listing (`l -slt`) carries the archive header after a line of dashes and
 * one blank-line terminated block per member after a line of ten dashes.
 */
module P7zip {

  import opened Errors
  import opened Text
  import opened Numerals
  import opened Streams
  import opened ArchiveCore
  import opened Helpers
  import Listing

  const Tag := "7z"
  const Command: seq<string> := ["7zr"]

  const Decl := ClassDecl(Some(["application/x-7z-compressed"]), Some(["7z"]), Some(Tag), false, Some(Command), None, true)

  /** `parse_hunk`: "key = value" lines, split at the first '='. */
  function Info(hunk: string): map<string, string> {
    Listing.Info(hunk, '=')
  }

  // ---------------------------------------------------------------------
  // Header and members

  datatype Header = Header(physicalSize: int, headersSize: int, blocks: int)

  /** `int(info[key])` */
  function Required(info: map<string, string>, key: string): (r: Result<int>)
    ensures key !in info ==> r == Err(KeyError(key))
    ensures key in info ==> r == ParseInt(info[key])
  {
    if key in info then ParseInt(info[key]) else Err(KeyError(key))
  }

  /** `int(info[key] or '0')`: present but empty reads as 0. */
  function IntOrZero(info: map<string, string>, key: string): (r: Result<int>)
    ensures key !in info ==> r == Err(KeyError(key))
    ensures key in info && info[key] == "" ==> r == Ok(0)
    ensures key in info && info[key] != "" ==> r == ParseInt(info[key])
  {
    if key !in info then Err(KeyError(key))
    else if info[key] == "" then Ok(0)
    else ParseInt(info[key])
  }

  /** `Header(hunk)`: physical size, headers size and block count must all
      be present and integers, and are read in that order. */
  function ParseHeader(hunk: string): (r: Result<Header>)
    ensures r.Ok? <==> Required(Info(hunk), "physical_size").Ok? && Required(Info(hunk), "headers_size").Ok?
                       && Required(Info(hunk), "blocks").Ok?
    ensures r.Ok? ==> Required(Info(hunk), "physical_size") == Ok(r.value.physicalSize)
                      && Required(Info(hunk), "headers_size") == Ok(r.value.headersSize)
                      && Required(Info(hunk), "blocks") == Ok(r.value.blocks)
    ensures Required(Info(hunk), "physical_size").Err? ==> r == Err(Required(Info(hunk), "physical_size").exc)
    ensures r.Err? ==> r.exc.KeyError? || r.exc.ValueError?
  {
    var info := Info(hunk);
    var physical := Required(info, "physical_size");
    var headers := Required(info, "headers_size");
    var blocks := Required(info, "blocks");
    if physical.Err? then Err(physical.exc)
    else if headers.Err? then Err(headers.exc)
    else if blocks.Err? then Err(blocks.exc)
    else Ok(Header(physical.value, headers.value, blocks.value))
  }

  /** The `crc` field: an integer when the listing gives one, '' otherwise. */
  datatype Crc = NoCrc | Crc(value: nat)

  /** A member's fields; `attributes` is absent when the block has no such line. */
  datatype Member = Member(filename: string, size: int, packedSize: int, block: int, crc: Crc,
                           attributes: Option<string>)

  /** `Member(hunk)` from the hunk's dictionary: the path is required, so is an integer size; packed
      size and block are required but may be empty; a non-empty crc is four
      hex-encoded bytes folded big-endian. */
  function MemberOf(info: map<string, string>): (r: Result<Member>)
    ensures "path" !in info ==> r == Err(KeyError("path"))
    ensures r.Ok? ==> "path" in info && r.value.filename == info["path"]
    ensures r.Ok? ==> Required(info, "size") == Ok(r.value.size)
    ensures r.Ok? ==> IntOrZero(info, "packed_size") == Ok(r.value.packedSize)
                      && IntOrZero(info, "block") == Ok(r.value.block)
    ensures r.Ok? ==> "crc" in info && (r.value.crc == NoCrc <==> info["crc"] == "")
    ensures r.Ok? && r.value.crc.Crc? ==>
      Crc32FromHex(info["crc"]) == Ok(r.value.crc.value) && r.value.crc.value < 0x1_0000_0000
    ensures r.Ok? ==> r.value.attributes == (if "attributes" in info then Some(info["attributes"]) else None)
    ensures r.Err? ==> r.exc.KeyError? || r.exc.ValueError? || r.exc.StructError?
  {
    var attributes := if "attributes" in info then Some(info["attributes"]) else None;
    if "path" !in info then Err(KeyError("path"))
    else
      var size := Required(info, "size");
      var packed := IntOrZero(info, "packed_size");
      var block := IntOrZero(info, "block");
      if size.Err? then Err(size.exc)
      else if packed.Err? then Err(packed.exc)
      else if block.Err? then Err(block.exc)
      else if "crc" !in info then Err(KeyError("crc"))
      else if info["crc"] == "" then
        Ok(Member(info["path"], size.value, packed.value, block.value, NoCrc, attributes))
      else
        var crc := Crc32FromHex(info["crc"]);
        if crc.Err? then Err(crc.exc)
        else Ok(Member(info["path"], size.value, packed.value, block.value, Crc(crc.value), attributes))
  }

  /** `Member(hunk)`: the hunk's dictionary read as a member. */
  function ParseMember(hunk: string): Result<Member> {
    MemberOf(Info(hunk))
  }

  /** `isfile()`: the first attribute letter is not 'D'; a member without
      attributes, or with empty ones, raises. */
  function IsFile(m: Member): (r: Result<bool>)
    ensures m.attributes.None? ==> r.Err? && r.exc.AttributeError?
    ensures m.attributes == Some("") ==> r == Err(IndexError)
    ensures r.Ok? <==> m.attributes.Some? && m.attributes.value != ""
    ensures r.Ok? ==> (r.value <==> m.attributes.value[0] != 'D')
  {
    match m.attributes
    case None => Err(AttributeError("'Member' object has no attribute 'attributes'"))
    case Some(a) => if a == "" then Err(IndexError) else Ok(a[0] != 'D')
  }

  /** `isdir()`: the first attribute letter is 'D'. */
  function IsDir(m: Member): (r: Result<bool>)
    ensures m.attributes.None? ==> r.Err? && r.exc.AttributeError?
    ensures m.attributes == Some("") ==> r == Err(IndexError)
    ensures r.Ok? <==> m.attributes.Some? && m.attributes.value != ""
    ensures r.Ok? ==> (r.value <==> m.attributes.value[0] == 'D')
  {
    match m.attributes
    case None => Err(AttributeError("'Member' object has no attribute 'attributes'"))
    case Some(a) => if a == "" then Err(IndexError) else Ok(a[0] == 'D')
  }

  /** Every member is exactly one of file and directory. */
  lemma DirIsNotFile(m: Member)
    ensures IsFile(m).Ok? <==> IsDir(m).Ok?
    ensures IsFile(m).Ok? ==> IsDir(m).value == !IsFile(m).value
    ensures IsFile(m).Err? ==> IsDir(m) == IsFile(m)
  {
  }

  function Filenames(ms: seq<Member>): (r: seq<string>)
    ensures |r| == |ms|
    ensures forall i :: 0 <= i < |ms| ==> r[i] == ms[i].filename
  {
    if ms == [] then [] else [ms[0].filename] + Filenames(ms[1..])
  }

  /** The list comprehension over the member blocks: the first failing
      block's error, else one member per block. */
  function ParseMembers(hunks: seq<string>): (r: Result<seq<Member>>)
    ensures r.Ok? ==> |r.value| == |hunks|
    ensures r.Ok? ==> forall i :: 0 <= i < |hunks| ==> ParseMember(hunks[i]) == Ok(r.value[i])
    ensures r.Ok? <==> forall i :: 0 <= i < |hunks| ==> ParseMember(hunks[i]).Ok?
    ensures r.Err? ==> exists i :: 0 <= i < |hunks| && ParseMember(hunks[i]) == Err(r.exc)
                              && forall j :: 0 <= j < i ==> ParseMember(hunks[j]).Ok?
  {
    var rs := seq(|hunks|, i requires 0 <= i < |hunks| => ParseMember(hunks[i]));
    assert forall i :: 0 <= i < |hunks| ==> rs[i] == ParseMember(hunks[i]);
    AllOk(rs)
  }

  // ---------------------------------------------------------------------
  // Sectioning the listing

  /** `^` in multi-line mode: the start of the text or just after a newline. */
  predicate LineStart(s: string, i: nat) {
    i <= |s| && (i == 0 || s[i - 1] == '\n')
  }

  /** The end of the run of dashes starting at `i`. */
  function DashesEnd(s: string, i: nat): (r: nat)
    requires i <= |s|
    ensures i <= r <= |s|
    ensures forall j :: i <= j < r ==> s[j] == '-'
    ensures r < |s| ==> s[r] != '-'
    decreases |s| - i
  {
    if i < |s| && s[i] == '-' then DashesEnd(s, i + 1) else i
  }

  /** The first blank line (two newlines in a row) at or after `k`. */
  function BlankLineFrom(s: string, k: nat): (r: Option<nat>)
    ensures r.Some? ==> k <= r.value && OccursAt(s, "\n\n", r.value)
    ensures r.Some? ==> forall j :: k <= j < r.value ==> !OccursAt(s, "\n\n", j)
    ensures r.None? ==> forall j :: k <= j ==> !OccursAt(s, "\n\n", j)
    decreases |s| - k
  {
    if k + 2 > |s| then None
    else if s[k..k + 2] == "\n\n" then Some(k)
    else BlankLineFrom(s, k + 1)
  }

  /** `--+\n(.+?)(?=\n\n)` tried at `i`: a line of two or more dashes, then
      the shortest non-empty text that a blank line follows. */
  function HeaderAt(s: string, i: nat): Option<string>
    requires i <= |s|
  {
    if !LineStart(s, i) then None
    else
      var e := DashesEnd(s, i);
      if e < i + 2 || e == |s| || s[e] != '\n' then None
      else match BlankLineFrom(s, e + 2)
        case None => None
        case Some(g) => Some(s[e + 1..g])
  }

  /** `ereg_header.search(info)`: the leftmost match at or after `i`. */
  function HeaderSearch(s: string, i: nat): Option<string>
    requires i <= |s|
    decreases |s| - i
  {
    if HeaderAt(s, i).Some? then HeaderAt(s, i)
    else if i == |s| then None
    else HeaderSearch(s, i + 1)
  }

  /** `^----------$` at `i`: a line of exactly ten dashes. */
  predicate TenDashesAt(s: string, i: nat) {
    LineStart(s, i) && i + 10 <= |s| && s[i..i + 10] == "----------"
    && (i + 10 == |s| || s[i + 10] == '\n')
  }

  /** The end of the leftmost ten-dash line at or after `i`. */
  function TenDashesEnd(s: string, i: nat): (r: Option<nat>)
    requires i <= |s|
    ensures r.Some? ==> r.value >= i + 10 && TenDashesAt(s, r.value - 10)
    ensures r.Some? ==> forall j :: i <= j < r.value - 10 ==> !TenDashesAt(s, j)
    ensures r.None? ==> forall j :: i <= j ==> !TenDashesAt(s, j)
    decreases |s| - i
  {
    if TenDashesAt(s, i) then Some(i + 10)
    else if i == |s| then None
    else TenDashesEnd(s, i + 1)
  }

  /** `^(.+?)(?=\n\n)` tried at `p`: the end of the shortest non-empty text
      from a line start that a blank line follows. */
  function MemberAt(s: string, p: nat): Option<nat> {
    if LineStart(s, p) then BlankLineFrom(s, p + 1) else None
  }

  /** The leftmost member match at or after `pos`, as (start, end). */
  function NextMember(s: string, pos: nat): (r: Option<(nat, nat)>)
    requires pos <= |s|
    ensures r.Some? ==> pos <= r.value.0 < r.value.1 && r.value.1 + 2 <= |s|
                        && MemberAt(s, r.value.0) == Some(r.value.1)
    ensures r.Some? ==> forall q :: pos <= q < r.value.0 ==> MemberAt(s, q).None?
    decreases |s| - pos
  {
    if MemberAt(s, pos).Some? then Some((pos, MemberAt(s, pos).value))
    else if pos == |s| then None
    else NextMember(s, pos + 1)
  }

  /** `ereg_member.finditer(info, pos)`: each match resumes the search where
      the previous one ended. */
  function MemberHunks(s: string, pos: nat): seq<string>
    requires pos <= |s|
    decreases |s| - pos
  {
    match NextMember(s, pos)
    case None => []
    case Some((a, g)) => [s[a..g]] + MemberHunks(s, g)
  }

  /** `Un7z.__init__`'s reading of the listing: the header (a missing one
      makes `.group` fail on None), then the members after the ten-dash
      line (a missing one makes `.end` fail on None). */
  function ReadListing(output: string): (r: Result<(Header, seq<Member>)>)
    ensures HeaderSearch(output, 0).None? ==> r == Err(AttributeError("'NoneType' object has no attribute 'group'"))
    ensures r.Ok? ==> HeaderSearch(output, 0).Some? && ParseHeader(HeaderSearch(output, 0).value) == Ok(r.value.0)
    ensures (HeaderSearch(output, 0).Some? && ParseHeader(HeaderSearch(output, 0).value).Ok?
             && TenDashesEnd(output, 0).None?) ==> r == Err(AttributeError("'NoneType' object has no attribute 'end'"))
    ensures r.Ok? ==> TenDashesEnd(output, 0).Some?
                      && ParseMembers(MemberHunks(output, TenDashesEnd(output, 0).value)) == Ok(r.value.1)
  {
    var header := HeaderSearch(output, 0);
    if header.None? then Err(AttributeError("'NoneType' object has no attribute 'group'"))
    else
      var h := ParseHeader(header.value);
      if h.Err? then Err(h.exc)
      else
        var start := TenDashesEnd(output, 0);
        if start.None? then Err(AttributeError("'NoneType' object has no attribute 'end'"))
        else
          var members := ParseMembers(MemberHunks(output, start.value));
          if members.Err? then Err(members.exc) else Ok((h.value, members.value))
  }

  // ---------------------------------------------------------------------
  // What the sectioning finds

  /** A member block as the tool prints it: non-empty, not ending in a
      newline and holding no blank line. */
  predicate PlainBlock(b: string) {
    |b| >= 1 && b[|b| - 1] != '\n' && forall j :: 0 <= j < |b| ==> !OccursAt(b, "\n\n", j)
  }

  /** Blocks each followed by a blank line, then a tail without one. */
  function Layout(blocks: seq<string>, tail: string): string {
    if blocks == [] then tail else blocks[0] + "\n\n" + Layout(blocks[1..], tail)
  }

  /** The hunks the member regex yields for such a layout: the first block
      as it is (after `lead`), each later one with the second newline of
      the blank line before it. */
  function Hunks(lead: string, blocks: seq<string>): (r: seq<string>)
    ensures |r| == |blocks|
    ensures |blocks| > 0 ==> r[0] == lead + blocks[0]
    ensures forall i :: 0 < i < |blocks| ==> r[i] == "\n" + blocks[i]
    decreases |blocks|
  {
    if blocks == [] then [] else [lead + blocks[0]] + Hunks("\n", blocks[1..])
  }

  lemma {:induction false} BlankLineFromIs(s: string, k: nat, g: nat)
    requires k <= g && OccursAt(s, "\n\n", g)
    requires forall j :: k <= j < g ==> !OccursAt(s, "\n\n", j)
    ensures BlankLineFrom(s, k) == Some(g)
    decreases g - k
  {
    if k < g {
      BlankLineFromIs(s, k + 1, g);
    }
  }

  /** A text without a blank line gives none to the text it ends. */
  lemma NoBlankLineInSuffix(s: string, k: nat, t: string)
    requires k <= |s| && s[k..] == t
    requires forall j :: !OccursAt(t, "\n\n", j)
    ensures forall j :: k <= j ==> !OccursAt(s, "\n\n", j)
  {
    forall j | k <= j ensures !OccursAt(s, "\n\n", j) {
      if j + 2 <= |s| {
        assert t[j - k..j - k + 2] == s[j..j + 2];
        assert !OccursAt(t, "\n\n", j - k);
      }
    }
  }

  /** The blank line after a plain block placed at `q` is the first one
      found from `q` or just after. */
  lemma BlankAfterBlock(s: string, q: nat, b: string, k: nat)
    requires PlainBlock(b) && q + |b| + 2 <= |s|
    requires s[q..q + |b|] == b && s[q + |b|..q + |b| + 2] == "\n\n"
    requires q <= k <= q + 1
    ensures BlankLineFrom(s, k) == Some(q + |b|)
  {
    var g := q + |b|;
    forall j | k <= j < g ensures !OccursAt(s, "\n\n", j) {
      if j + 2 <= g {
        assert s[j] == b[j - q] && s[j + 1] == b[j - q + 1];
        assert !OccursAt(b, "\n\n", j - q);
      } else {
        assert s[j] == b[|b| - 1];
      }
    }
    BlankLineFromIs(s, k, g);
  }

  /** Without a blank line from `pos + 1` on, nothing more matches. */
  lemma {:induction false} NoBlankLineNoMember(s: string, pos: nat)
    requires pos <= |s|
    requires forall j :: pos + 1 <= j ==> !OccursAt(s, "\n\n", j)
    ensures NextMember(s, pos).None?
    decreases |s| - pos
  {
    if pos < |s| {
      NoBlankLineNoMember(s, pos + 1);
    }
  }

  /** A trailing block that no blank line follows is not a member. */
  lemma TrailingBlockIsNoMember(s: string, pos: nat)
    requires pos <= |s| && BlankLineFrom(s, pos + 1).None?
    ensures MemberHunks(s, pos) == []
  {
    NoBlankLineNoMember(s, pos);
  }

  /** After a layout's last block nothing more matches. */
  lemma LayoutEnd(s: string, pos: nat, lead: string, tail: string)
    requires lead == "" || lead == "\n"
    requires 0 < pos < |s| && s[pos - 1] != '\n'
    requires s[pos + 1..] == lead + tail
    requires forall j :: !OccursAt(tail, "\n\n", j)
    ensures NextMember(s, pos).None?
  {
    var p := pos + 1;
    assert MemberAt(s, pos).None?;
    assert s[p + |lead|..] == tail;
    NoBlankLineInSuffix(s, p + |lead|, tail);
    NoBlankLineNoMember(s, p);
  }

  /** The next match after `pos` is the layout's first block (after `lead`),
      and it leaves the search just before the second newline that follows. */
  lemma LayoutStep(s: string, pos: nat, lead: string, b: string, rest: string) returns (g: nat)
    requires |lead| <= 1
    requires 0 < pos < |s| && s[pos - 1] != '\n' && s[pos] == '\n'
    requires s[pos + 1..] == lead + b + "\n\n" + rest
    requires PlainBlock(b)
    ensures g == pos + 1 + |lead| + |b| && g < |s|
    ensures NextMember(s, pos) == Some((pos + 1, g))
    ensures s[pos + 1..g] == lead + b
    ensures s[g - 1] != '\n' && s[g] == '\n' && s[g + 1..] == "\n" + rest
  {
    var p := pos + 1;
    var q := p + |lead|;
    g := q + |b|;
    BlockSlices(s, p, lead, b, rest);
    BlankAfterBlock(s, q, b, p + 1);
    NextMemberAfterNewline(s, pos, g);
  }

  /** Right after a newline that ends a non-blank line, the next match
      starts at once and runs to the first blank line. */
  lemma NextMemberAfterNewline(s: string, pos: nat, g: nat)
    requires 0 < pos < |s| && s[pos - 1] != '\n' && s[pos] == '\n'
    requires BlankLineFrom(s, pos + 2) == Some(g)
    ensures NextMember(s, pos) == Some((pos + 1, g))
  {
    assert MemberAt(s, pos).None?;
    assert MemberAt(s, pos + 1) == Some(g);
  }

  /** Where the lead, the block, the blank line and the rest of a layout sit. */
  lemma BlockSlices(s: string, p: nat, lead: string, b: string, rest: string)
    requires p <= |s| && s[p..] == lead + b + "\n\n" + rest
    ensures var q := p + |lead|; var g := q + |b|;
      g + 2 <= |s| && s[p..g] == lead + b && s[q..g] == b && s[g..g + 2] == "\n\n" && s[g + 1..] == "\n" + rest
      && s[g] == '\n' && (b != [] ==> s[g - 1] == b[|b| - 1])
  {
    var q := p + |lead|;
    var g := q + |b|;
    var t := s[p..];
    assert t[..|lead| + |b|] == lead + b;
    assert t[|lead|..|lead| + |b|] == b;
    assert t[|lead| + |b|..|lead| + |b| + 2] == "\n\n";
    assert t[|lead| + |b| + 1..] == "\n" + rest;
    assert s[g] == t[|lead| + |b|];
    if b != [] {
      assert s[g - 1] == t[|lead| + |b| - 1];
    }
  }

  /** The member regex, resumed after a newline that ends a line which is
      not blank, yields exactly one hunk per block of a layout. */
  lemma {:induction false} MemberHunksOfLayout(s: string, pos: nat, lead: string, blocks: seq<string>, tail: string)
    requires lead == "" || lead == "\n"
    requires 0 < pos < |s| && s[pos - 1] != '\n' && s[pos] == '\n'
    requires s[pos + 1..] == lead + Layout(blocks, tail)
    requires forall i :: 0 <= i < |blocks| ==> PlainBlock(blocks[i])
    requires forall j :: !OccursAt(tail, "\n\n", j)
    ensures MemberHunks(s, pos) == Hunks(lead, blocks)
    decreases |blocks|
  {
    if blocks == [] {
      LayoutEnd(s, pos, lead, tail);
    } else {
      var g := LayoutStep(s, pos, lead, blocks[0], Layout(blocks[1..], tail));
      forall i | 0 <= i < |blocks[1..]| ensures PlainBlock(blocks[1..][i]) {
        assert blocks[1..][i] == blocks[i + 1];
      }
      MemberHunksOfLayout(s, g, "\n", blocks[1..], tail);
    }
  }

  /** Hunks holding the same information parse to the same members. */
  lemma SameInfoSameMembers(xs: seq<string>, ys: seq<string>)
    requires |xs| == |ys|
    requires forall i :: 0 <= i < |xs| ==> Info(xs[i]) == Info(ys[i])
    ensures ParseMembers(xs) == ParseMembers(ys)
  {
    var px := seq(|xs|, i requires 0 <= i < |xs| => ParseMember(xs[i]));
    var py := seq(|ys|, i requires 0 <= i < |ys| => ParseMember(ys[i]));
    forall i | 0 <= i < |xs| ensures px[i] == py[i] {
      assert ParseMember(xs[i]) == MemberOf(Info(xs[i]));
    }
    assert px == py;
  }

  /** The hunks of a layout parse as its blocks do. */
  lemma HunksParseAsBlocks(lead: string, blocks: seq<string>)
    requires lead == "" || lead == "\n"
    ensures ParseMembers(Hunks(lead, blocks)) == ParseMembers(blocks)
  {
    var hs := Hunks(lead, blocks);
    forall i | 0 <= i < |blocks| ensures Info(hs[i]) == Info(blocks[i]) {
      if i == 0 && lead == "" {
        assert hs[i] == blocks[i];
      } else {
        assert hs[i] == "\n" + blocks[i];
        Listing.InfoAfterNewline(blocks[i], '=');
      }
    }
    SameInfoSameMembers(hs, blocks);
  }

  lemma TenDashesEndWith(s: string, i: nat)
    requires TenDashesAt(s, i)
    ensures s[i + 9] == '-'
    ensures i + 10 < |s| ==> s[i + 10] == '\n'
  {
    var d := s[i..i + 10];
    assert d[9] == '-';
    assert s[i + 9] == d[9];
  }

  /** The listing's member section: whatever precedes the ten-dash line,
      the members are exactly those of the blocks after it. */
  lemma MembersAfterTenDashes(output: string, blocks: seq<string>, tail: string)
    requires TenDashesEnd(output, 0).Some?
    requires var e := TenDashesEnd(output, 0).value;
      e < |output| && output[e + 1..] == Layout(blocks, tail)
    requires forall i :: 0 <= i < |blocks| ==> PlainBlock(blocks[i])
    requires forall j :: !OccursAt(tail, "\n\n", j)
    ensures ParseMembers(MemberHunks(output, TenDashesEnd(output, 0).value)) == ParseMembers(blocks)
  {
    HunksAfterTenDashes(output, blocks, tail);
    HunksParseAsBlocks("", blocks);
  }

  lemma HunksAfterTenDashes(output: string, blocks: seq<string>, tail: string)
    requires TenDashesEnd(output, 0).Some?
    requires var e := TenDashesEnd(output, 0).value;
      e < |output| && output[e + 1..] == Layout(blocks, tail)
    requires forall i :: 0 <= i < |blocks| ==> PlainBlock(blocks[i])
    requires forall j :: !OccursAt(tail, "\n\n", j)
    ensures MemberHunks(output, TenDashesEnd(output, 0).value) == Hunks("", blocks)
  {
    var e := TenDashesEnd(output, 0).value;
    TenDashesEndWith(output, e - 10);
    assert output[e + 1..] == "" + Layout(blocks, tail);
    MemberHunksOfLayout(output, e, "", blocks, tail);
  }

  /** A listing that opens with a dash line reads its header from the block
      after it. */
  lemma HeaderAfterDashes(header: string, rest: string)
    requires PlainBlock(header)
    ensures HeaderSearch("--\n" + header + "\n\n" + rest, 0) == Some(header)
  {
    var s := "--\n" + header + "\n\n" + rest;
    assert s[0] == '-' && s[1] == '-' && s[2] == '\n';
    assert DashesEnd(s, 2) == 2;
    assert DashesEnd(s, 1) == 2;
    assert DashesEnd(s, 0) == 2;
    assert s[3..3 + |header|] == header;
    assert s[3 + |header|..3 + |header| + 2] == "\n\n";
    BlankAfterBlock(s, 3, header, 4);
    assert s[3..3 + |header|] == header;
  }

  // ---------------------------------------------------------------------
  // Command lines

  /** `cmd + ['l', temp, '-slt']`: the technical listing. */
  function ListArgv(cmd: seq<string>, temp: string): (r: seq<string>)
    ensures |r| == |cmd| + 3 && r[..|cmd|] == cmd && r[|cmd|..] == ["l", temp, "-slt"]
  {
    cmd + ["l", temp, "-slt"]
  }

  /** `cmd + ['e', temp, '-so', member]`: a member to standard output. */
  function OpenArgv(cmd: seq<string>, temp: string, member: string): (r: seq<string>)
    ensures |r| == |cmd| + 4 && r[..|cmd|] == cmd && r[|cmd|..] == ["e", temp, "-so", member]
  {
    cmd + ["e", temp, "-so", member]
  }

  /** `cmd + ['x', temp, '-y', '-o' + path, member]` */
  function ExtractArgv(cmd: seq<string>, temp: string, member: string, path: string): (r: seq<string>)
    ensures |r| == |cmd| + 5 && r[..|cmd|] == cmd && r[|cmd|..] == ["x", temp, "-y", "-o" + path, member]
  {
    cmd + ["x", temp, "-y", "-o" + path, member]
  }

  /** `cmd + ['x', temp, '-y', '-o' + path] + names`: the names last, in order. */
  function ExtractAllArgv(cmd: seq<string>, temp: string, names: seq<string>, path: string): (r: seq<string>)
    ensures |r| == |cmd| + |names| + 4
    ensures r[..|cmd|] == cmd && r[|cmd|..|cmd| + 4] == ["x", temp, "-y", "-o" + path]
    ensures r[|cmd| + 4..] == names
  {
    cmd + ["x", temp, "-y", "-o" + path] + names
  }

  /** `open(member)` on an archive of several members: the member's bytes,
      copied out of the pipe, unless the tool exits non-zero. */
  function OpenMember(cmd: seq<string>, temp: string, member: string,
                      pipe: seq<string> -> seq<int>, status: seq<string> -> int): (r: Result<seq<int>>)
    ensures r.Ok? <==> status(OpenArgv(cmd, temp, member)) == 0
    ensures r.Ok? ==> r.value == pipe(OpenArgv(cmd, temp, member))
    ensures r.Err? ==> r.exc == CalledProcessError(status(OpenArgv(cmd, temp, member)))
  {
    var code := CheckExit(status(OpenArgv(cmd, temp, member)));
    if code.Err? then Err(code.exc) else Ok(pipe(OpenArgv(cmd, temp, member)))
  }

  /** `extract(member, path)`: run the tool, a non-zero status raises. */
  function Extract(cmd: seq<string>, temp: string, member: string, path: string,
                   status: seq<string> -> int): (r: Result<()>)
    ensures r.Ok? <==> status(ExtractArgv(cmd, temp, member, path)) == 0
    ensures r.Err? ==> r.exc == CalledProcessError(status(ExtractArgv(cmd, temp, member, path)))
  {
    CheckExit(status(ExtractArgv(cmd, temp, member, path)))
  }

  /** `extractall(path, members)` */
  function ExtractAll(cmd: seq<string>, temp: string, names: seq<string>, path: string,
                      status: seq<string> -> int): (r: Result<()>)
    ensures r.Ok? <==> status(ExtractAllArgv(cmd, temp, names, path)) == 0
    ensures r.Err? ==> r.exc == CalledProcessError(status(ExtractAllArgv(cmd, temp, names, path)))
  {
    CheckExit(status(ExtractAllArgv(cmd, temp, names, path)))
  }

  /** `Un7z._check_availability` is the pipe lookup alone, with no
      fallback program. */
  lemma Availability(which: string -> Option<string>)
    ensures Candidates(Command, Decl.fallbacks) == ["7zr"]
    ensures MissingMessage(Candidates(Command, Decl.fallbacks)) == "cannot find executable"
    ensures Existing(["7zr"], which) != [] <==> Found(which, "7zr")
  {
    ExistingFirst(["7zr"], which);
  }

  // ---------------------------------------------------------------------
  // The container

  class Un7z {
    const base: Archive
    /** the temporary copy the tool reads */
    const temp: Archive
    const header: Header
    const members: seq<Member>
    /** `_stream`: the archive stands for its only member, piped from the tool */
    const stream: bool

    ghost predicate Valid() {
      !stream ==> base.raw == temp.raw && temp.closefd
    }

    constructor (base: Archive, temp: Archive, header: Header, members: seq<Member>, stream: bool)
      ensures this.base == base && this.temp == temp && this.header == header
      ensures this.members == members && this.stream == stream
    {
      this.base := base;
      this.temp := temp;
      this.header := header;
      this.members := members;
      this.stream := stream;
    }

    /** `Un7z.__init__`: copy the input to a temporary file (always), list
        it with the tool, read header and members, then present the only
        member (piped from the tool) or the whole copy rewound to its
        start.  `run` gives the tool's output for a command line and `pipe`
        the bytes a command line writes to standard output. */
    static method New(name: string, fileobj: Source, command: seq<string>,
                      run: seq<string> -> Result<string>, pipe: seq<string> -> seq<int>,
                      creatable: bool, tempPath: string) returns (r: Result<Un7z>)
      requires !fileobj.NoSource? ==> Reader(fileobj).Valid()
      modifies Drained(fileobj)
      ensures TempName(fileobj, NoName).Err? ==> r == Err(TempName(fileobj, NoName).exc)
      ensures TempName(fileobj, NoName).Ok? ==>
        (r.Ok? <==> run(ListArgv(command, tempPath)).Ok? && ReadListing(run(ListArgv(command, tempPath)).value).Ok?)
      ensures r.Ok? ==>
        var listing := ReadListing(run(ListArgv(command, tempPath)).value).value;
        var p := Collapse(Tag, name, Filenames(listing.1), true);
        var u := r.value;
        && u.Valid() && u.header == listing.0 && u.members == listing.1 && u.stream == p.single
        && u.base.kind == Un7z && u.base.source == fileobj && u.base.realname == p.realname
        && u.base.Record() == Derive(Un7z, p.realname, SourceLayer(fileobj), Some(p.tag), !p.single)
        && fresh(u.temp.raw) && u.temp.raw.data == old(Reader(fileobj).Remaining())
        && (p.single ==> fresh(u.base.raw) && !u.base.raw.closed
                         && u.base.raw.data == pipe(OpenArgv(command, tempPath, listing.1[0].filename)))
        && (!p.single ==> u.base.raw.pos == 0)
    {
      var t, _ := NewArchiveTemp(fileobj, NoName, creatable, tempPath);
      if t.Err? {
        return Err(t.exc);
      }
      var temp := t.value;
      var output := run(ListArgv(command, tempPath));
      if output.Err? {
        return Err(output.exc);
      }
      var listing := ReadListing(output.value);
      if listing.Err? {
        return Err(listing.exc);
      }
      var p := Collapse(Tag, name, Filenames(listing.value.1), true);
      var content: Source;
      if p.single {
        var out := new Stream(pipe(OpenArgv(command, tempPath, listing.value.1[0].filename)), false, NoName);
        content := RawSource(out);
      } else {
        temp.raw.Seek(0);
        content := ArchiveSource(temp);
      }
      var base := new Archive(Un7z, StrName(p.realname), content, fileobj, true, Some(p.tag));
      var u := new Un7z(base, temp, listing.value.0, listing.value.1, p.single);
      return Ok(u);
    }

    /** `closed`: the pipe's state for a single member, the copy's otherwise. */
    function Closed(): bool
      reads base.raw
    {
      base.raw.closed
    }

    /** `close()`: close the pipe (if still open) or the temporary copy;
        either way the archive ends closed. */
    method Close()
      requires Valid()
      modifies base.raw
      ensures Closed()
      ensures base.raw.pos == old(base.raw.pos)
    {
      if stream {
        if !base.raw.closed {
          base.raw.Close();
        }
      } else {
        temp.Close();
      }
    }
  }
}
