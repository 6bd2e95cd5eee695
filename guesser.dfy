/**
 * The guesser: sniff the MIME type of the archive at hand, try the
 * registered decompressors by priority, stack the first one that accepts,
 * and repeat until none accepts or the round limit is used up.
 *
 * Archives are handled here by their records (`Layer`).  What the model
 * cannot compute itself (the MIME sniff, the executable lookup, starting a
 * pipe, the member lists the tar and zip libraries read, and the listings
 * the rar and 7z tools print) comes from an `Env` of oracles indexed by the
 * class tried and the record of the archive it reads.
 */
module Guessing {

  import opened Errors
  import opened Text
  import opened Streams
  import opened ArchiveCore
  import opened Helpers
  import opened Registry
  import opened Classes
  import opened Stacking
  import Gzip
  import Bzip2
  import Lzma
  import Xz
  import Zstd
  import Tar
  import Zip
  import Rar
  import P7zip

  /** The oracles the guesser consults. */
  datatype Env = Env(
    /** `magic.from_buffer(archive.peek(1024), mime=True)` */
    mime: Layer -> string,
    /** `_check_availability()` of a class */
    available: ClassId -> Result<()>,
    /** starting the pipe of a filter class over an archive */
    spawn: (ClassId, Layer) -> Result<()>,
    /** the member names the tar or zip library reads from a seekable archive */
    entries: (ClassId, Layer) -> Result<seq<string>>,
    /** the listing the rar or 7z tool prints for an archive */
    listing: (ClassId, Layer) -> Result<string>)

  // ---------------------------------------------------------------------
  // One candidate

  /** `decompressor._guess(mime, name, archive)`: Gunzip and Bunzip2 have
      their own rules, every other class the base one under its declaration. */
  function ClassGuess(cls: ClassId, mime: string, name: string, chain: seq<ClassId>): (r: Result<string>)
    ensures r.Err? ==> r.exc.ValueError?
  {
    if cls == Gunzip then Gzip.Guess(mime, name)
    else if cls == Bunzip2 then Bzip2.Guess(mime, name, chain)
    else BaseGuess(cls, DeclOf(cls), mime, name, chain)
  }

  /** `decompressor._guess` as written: Bunzip2 and the classes on the base
      rule search the name with `RE_EXTENSION`, which can fail. */
  function ClassGuessAsWritten(cls: ClassId, mime: string, name: string, chain: seq<ClassId>): Result<string> {
    if cls == Gunzip then Gzip.Guess(mime, name)
    else if cls == Bunzip2 then Bzip2.GuessAsWritten(mime, name, chain)
    else BaseGuessAsWritten(cls, DeclOf(cls), mime, name, chain)
  }

  /** The guess the resolver runs agrees with the code as written on every
      name without a newline, so what is proved below of the resolver holds
      of the program for such names.  On "a\nb" the first built-in class
      raises AttributeError instead, which no candidate swallows. */
  lemma ClassGuessAgreesWithoutNewline(cls: ClassId, mime: string, name: string, chain: seq<ClassId>)
    ensures '\n' !in name ==> ClassGuessAsWritten(cls, mime, name, chain) == ClassGuess(cls, mime, name, chain)
    ensures ClassGuessAsWritten(Bunzip2, mime, "a\nb", chain).Err?
    ensures ClassGuessAsWritten(Bunzip2, mime, "a\nb", chain).exc.AttributeError?
  {
    if '\n' !in name {
      if cls == Bunzip2 {
        Bzip2.GuessAsWrittenAgrees(mime, name, chain);
      } else if cls != Gunzip {
        GuessAgreesWithoutNewline(cls, DeclOf(cls), mime, name, chain);
      }
    }
    Bzip2.GuessAsWrittenAgrees(mime, "a\nb", chain);
  }

  /** What a tar or zip reads: the archive itself when it can seek,
      otherwise its ArchiveTemp copy, which keeps the archive's name. */
  function SeekableLayer(input: Layer): (r: Layer)
    ensures r.seekable
    ensures input.seekable ==> r == input
    ensures !input.seekable ==>
      && r.kind == ArchiveTemp && r.realname == input.realname
      && r.decompressors == input.decompressors + [ArchiveTemp]
      && r.compressions == input.compressions
  {
    if input.seekable then input else Derive(ArchiveTemp, input.realname, Some(input), None, true)
  }

  /** `decompressor(realname, archive)`: the record of the new archive, or
      the exception its constructor raises. */
  function Construct(cls: ClassId, name: string, input: Layer, env: Env): (r: Result<Layer>)
    ensures r.Ok? ==> r.value.kind == cls && Grows(input, r.value)
    ensures r.Ok? && cls in {Untar, Unzip, Unrar, Un7z} ==> |r.value.compressions| == |input.compressions| + 1
    ensures cls == ArchiveBase ==> r.Err? && r.exc.AssertionError?
  {
    match cls
    case Untar => ConstructTar(name, input, env)
    case Unzip => ConstructZip(name, input, env)
    case Unrar => ConstructRar(name, input, env)
    case Un7z => Construct7z(name, input, env)
    case ArchiveBase => Err(AssertionError("This class can not be used in standalone"))
    case _ => ConstructFilter(cls, name, input, env)
  }

  /** A tar reads the members of a seekable archive; an empty archive has
      no first member. */
  function ConstructTar(name: string, input: Layer, env: Env): (r: Result<Layer>)
    ensures r.Ok? ==> r.value.kind == Untar && Grows(input, r.value)
    ensures r.Ok? ==> |r.value.compressions| == |input.compressions| + 1
  {
    var src := SeekableLayer(input);
    var names := env.entries(Untar, src);
    if names.Err? then Err(names.exc)
    else if names.value == [] then Err(OSError(None, "can not read first member of the tar archive", ""))
    else
      var p := Collapse(Tar.Tag, name, names.value, true);
      Ok(Derive(Untar, p.realname, Some(src), Some(p.tag), true))
  }

  /** A zip reads the members of a seekable archive and keeps its name. */
  function ConstructZip(name: string, input: Layer, env: Env): (r: Result<Layer>)
    ensures r.Ok? ==> r.value.kind == Unzip && Grows(input, r.value)
    ensures r.Ok? ==> |r.value.compressions| == |input.compressions| + 1
  {
    var src := SeekableLayer(input);
    var names := env.entries(Unzip, src);
    if names.Err? then Err(names.exc)
    else
      var p := Collapse(Zip.Tag, name, names.value, false);
      Ok(Derive(Unzip, name, Some(src), Some(p.tag), true))
  }

  /** A rar reads the listing `unrar` prints. */
  function ConstructRar(name: string, input: Layer, env: Env): (r: Result<Layer>)
    ensures r.Ok? ==> r.value.kind == Unrar && Grows(input, r.value)
    ensures r.Ok? ==> |r.value.compressions| == |input.compressions| + 1
  {
    var output := env.listing(Unrar, input);
    if output.Err? then Err(output.exc)
    else
      var listing := Rar.ReadListing(output.value);
      if listing.Err? then Err(listing.exc)
      else
        var p := Collapse(Rar.Tag, name, Rar.Filenames(listing.value.1), true);
        Ok(Derive(Unrar, p.realname, Some(input), Some(p.tag), !p.single))
  }

  /** A 7z archive reads the listing `7z` prints. */
  function Construct7z(name: string, input: Layer, env: Env): (r: Result<Layer>)
    ensures r.Ok? ==> r.value.kind == Un7z && Grows(input, r.value)
    ensures r.Ok? ==> |r.value.compressions| == |input.compressions| + 1
  {
    var output := env.listing(Un7z, input);
    if output.Err? then Err(output.exc)
    else
      var listing := P7zip.ReadListing(output.value);
      if listing.Err? then Err(listing.exc)
      else
        var p := Collapse(P7zip.Tag, name, P7zip.Filenames(listing.value.1), true);
        Ok(Derive(Un7z, p.realname, Some(input), Some(p.tag), !p.single))
  }

  /** A filter starts its pipe and tags the result with its compression. */
  function ConstructFilter(cls: ClassId, name: string, input: Layer, env: Env): (r: Result<Layer>)
    ensures r.Ok? ==> r.value.kind == cls && Grows(input, r.value)
  {
    var started := env.spawn(cls, input);
    if started.Err? then Err(started.exc)
    else Ok(Derive(cls, name, Some(input), DeclOf(cls).compression, false))
  }

  /** A tar fails as its member list fails, with IOError when there is no
      first member, and otherwise yields the record `Tar.Untar.New` gives
      its archive: the collapsed presentation of the members over the
      seekable input. */
  lemma ConstructTarOutcome(name: string, input: Layer, env: Env)
    ensures var names := env.entries(Untar, SeekableLayer(input));
      && (names.Err? ==> ConstructTar(name, input, env) == Err(names.exc))
      && (names == Ok([]) ==> ConstructTar(name, input, env).Err? && ConstructTar(name, input, env).exc.OSError?)
      && (names.Ok? && names.value != [] ==>
            var p := Collapse(Tar.Tag, name, names.value, true);
            ConstructTar(name, input, env) == Ok(Derive(Untar, p.realname, Some(SeekableLayer(input)), Some(p.tag), true)))
  {
  }

  /** A zip fails exactly as its member list fails, and otherwise yields the
      record `Zip.Unzip.New` gives its archive: the name passed in, with the
      collapsed tag. */
  lemma ConstructZipOutcome(name: string, input: Layer, env: Env)
    ensures var names := env.entries(Unzip, SeekableLayer(input));
      && (names.Err? ==> ConstructZip(name, input, env) == Err(names.exc))
      && (names.Ok? ==>
            var p := Collapse(Zip.Tag, name, names.value, false);
            ConstructZip(name, input, env) == Ok(Derive(Unzip, name, Some(SeekableLayer(input)), Some(p.tag), true)))
  {
  }

  /** A rar fails exactly as `unrar vta` or the reading of its listing
      fails, and otherwise yields the record `Rar.Unrar.New` gives its
      archive; it is seekable only when it stands for the whole copy. */
  lemma ConstructRarOutcome(name: string, input: Layer, env: Env)
    ensures var output := env.listing(Unrar, input);
      && (output.Err? ==> ConstructRar(name, input, env) == Err(output.exc))
      && (output.Ok? && Rar.ReadListing(output.value).Err? ==>
            ConstructRar(name, input, env) == Err(Rar.ReadListing(output.value).exc))
      && (output.Ok? && Rar.ReadListing(output.value).Ok? ==>
            var p := Collapse(Rar.Tag, name, Rar.Filenames(Rar.ReadListing(output.value).value.1), true);
            ConstructRar(name, input, env) == Ok(Derive(Unrar, p.realname, Some(input), Some(p.tag), !p.single)))
  {
  }

  /** A 7z archive fails exactly as `7z l -slt` or the reading of its
      listing fails, and otherwise yields the record `P7zip.Un7z.New` gives
      its archive. */
  lemma Construct7zOutcome(name: string, input: Layer, env: Env)
    ensures var output := env.listing(Un7z, input);
      && (output.Err? ==> Construct7z(name, input, env) == Err(output.exc))
      && (output.Ok? && P7zip.ReadListing(output.value).Err? ==>
            Construct7z(name, input, env) == Err(P7zip.ReadListing(output.value).exc))
      && (output.Ok? && P7zip.ReadListing(output.value).Ok? ==>
            var p := Collapse(P7zip.Tag, name, P7zip.Filenames(P7zip.ReadListing(output.value).value.1), true);
            Construct7z(name, input, env) == Ok(Derive(Un7z, p.realname, Some(input), Some(p.tag), !p.single)))
  {
  }

  /** A filter fails exactly as its pipe fails to start; otherwise it keeps
      the guessed name, adds its own compression tag and cannot seek. */
  lemma ConstructFilterOutcome(cls: ClassId, name: string, input: Layer, env: Env)
    ensures env.spawn(cls, input).Err? ==> ConstructFilter(cls, name, input, env) == Err(env.spawn(cls, input).exc)
    ensures env.spawn(cls, input).Ok? ==>
      ConstructFilter(cls, name, input, env) == Ok(Derive(cls, name, Some(input), DeclOf(cls).compression, false))
  {
  }

  /** What trying one candidate comes to. */
  datatype Trial = Skipped | Declined | Accepted(layer: Layer) | Failed(exc: Exc)

  /** The candidate lets the search go on. */
  predicate Passes(t: Trial) {
    t.Skipped? || t.Declined?
  }

  /** The body of `guess`'s loop for one candidate: a container is never
      stacked on an archive of its own class; otherwise guess the name,
      check availability and construct, where a ValueError from any of the
      three declines and any other exception escapes. */
  function Attempt(cls: ClassId, input: Layer, mime: string, env: Env): (t: Trial)
    ensures t.Skipped? <==> IsPack(input.kind) && input.kind == cls
    ensures t.Accepted? <==>
      && !(IsPack(input.kind) && input.kind == cls)
      && ClassGuess(cls, mime, input.realname, input.decompressors).Ok?
      && env.available(cls).Ok?
      && Construct(cls, ClassGuess(cls, mime, input.realname, input.decompressors).value, input, env).Ok?
    ensures t.Accepted? ==> t.layer.kind == cls && Grows(input, t.layer)
    ensures t.Failed? ==> !t.exc.ValueError?
  {
    if IsPack(input.kind) && input.kind == cls then Skipped
    else
      var name := ClassGuess(cls, mime, input.realname, input.decompressors);
      if name.Err? then Declined
      else
        var avail := env.available(cls);
        if avail.Err? then (if avail.exc.ValueError? then Declined else Failed(avail.exc))
        else
          var built := Construct(cls, name.value, input, env);
          if built.Ok? then Accepted(built.value)
          else if built.exc.ValueError? then Declined
          else Failed(built.exc)
  }

  /** `guess` over `cands[i..]`: the first candidate that does not pass
      decides, and `None` when all pass. */
  function FirstMatch(cands: seq<Entry>, i: nat, input: Layer, mime: string, env: Env): (r: Result<Option<Layer>>)
    ensures r.Ok? && r.value.Some? ==> Grows(input, r.value.value)
    ensures r.Err? ==> !r.exc.ValueError?
    decreases |cands| - i
  {
    if i >= |cands| then Ok(None)
    else
      match Attempt(cands[i].cls, input, mime, env)
      case Accepted(l) => Ok(Some(l))
      case Failed(e) => Err(e)
      case _ => FirstMatch(cands, i + 1, input, mime, env)
  }

  /** The outcome a deciding candidate gives. */
  function Outcome(t: Trial): Result<Option<Layer>> {
    if t.Accepted? then Ok(Some(t.layer))
    else if t.Failed? then Err(t.exc)
    else Ok(None)
  }

  /** First match wins: nothing is found exactly when every candidate
      passes, and otherwise the first candidate that does not pass gives
      the result, whatever the later ones would do. */
  lemma {:induction false} FirstMatchWins(cands: seq<Entry>, i: nat, input: Layer, mime: string, env: Env)
    requires i <= |cands|
    ensures FirstMatch(cands, i, input, mime, env) == Ok(None) <==>
      forall j :: i <= j < |cands| ==> Passes(Attempt(cands[j].cls, input, mime, env))
    ensures forall k :: i <= k < |cands| && !Passes(Attempt(cands[k].cls, input, mime, env))
                        && (forall j :: i <= j < k ==> Passes(Attempt(cands[j].cls, input, mime, env))) ==>
      FirstMatch(cands, i, input, mime, env) == Outcome(Attempt(cands[k].cls, input, mime, env))
    decreases |cands| - i
  {
    if i < |cands| {
      var t := Attempt(cands[i].cls, input, mime, env);
      if Passes(t) {
        FirstMatchWins(cands, i + 1, input, mime, env);
        forall k | i <= k < |cands| && !Passes(Attempt(cands[k].cls, input, mime, env))
                   && (forall j :: i <= j < k ==> Passes(Attempt(cands[j].cls, input, mime, env)))
          ensures FirstMatch(cands, i, input, mime, env) == Outcome(Attempt(cands[k].cls, input, mime, env))
        {
          assert k != i;
        }
      }
    }
  }

  /** A container never stacks on an archive of its own class. */
  lemma PackNotStackedOnItself(cands: seq<Entry>, i: nat, input: Layer, mime: string, env: Env)
    requires IsPack(input.kind)
    requires FirstMatch(cands, i, input, mime, env).Ok? && FirstMatch(cands, i, input, mime, env).value.Some?
    ensures FirstMatch(cands, i, input, mime, env).value.value.kind != input.kind
    decreases |cands| - i
  {
    if i < |cands| && Passes(Attempt(cands[i].cls, input, mime, env)) {
      PackNotStackedOnItself(cands, i + 1, input, mime, env);
    }
  }

  // ---------------------------------------------------------------------
  // The order of the candidates

  /** Place `e` after every entry of `s` whose priority is not larger. */
  function Insert(e: Entry, s: seq<Entry>): (r: seq<Entry>)
    ensures |r| == |s| + 1
  {
    if s == [] || e.priority < s[0].priority then [e] + s
    else [s[0]] + Insert(e, s[1..])
  }

  /** `sorted(entries, key=priority)`, a stable sort: each entry is inserted
      after the earlier ones of equal priority. */
  function SortByPriority(es: seq<Entry>): (r: seq<Entry>)
    ensures |r| == |es|
  {
    if es == [] then [] else Insert(es[|es| - 1], SortByPriority(es[..|es| - 1]))
  }

  predicate ByPriority(s: seq<Entry>) {
    forall i, j :: 0 <= i < j < |s| ==> s[i].priority <= s[j].priority
  }

  /** The entries of priority `p`, in order. */
  function OfPriority(s: seq<Entry>, p: int): seq<Entry> {
    if s == [] then [] else Own(s[0], p) + OfPriority(s[1..], p)
  }

  /** `[e]` when `e` has priority `p`. */
  function Own(e: Entry, p: int): seq<Entry> {
    if e.priority == p then [e] else []
  }

  /** Inserting keeps a lower bound every entry meets. */
  lemma {:induction false} InsertAbove(e: Entry, s: seq<Entry>, lo: int)
    requires e.priority >= lo
    requires forall i :: 0 <= i < |s| ==> s[i].priority >= lo
    ensures forall i :: 0 <= i < |Insert(e, s)| ==> Insert(e, s)[i].priority >= lo
  {
    if s != [] && e.priority >= s[0].priority {
      InsertAbove(e, s[1..], lo);
      assert Insert(e, s) == [s[0]] + Insert(e, s[1..]);
    }
  }

  lemma {:induction false} InsertKeepsOrder(e: Entry, s: seq<Entry>)
    requires ByPriority(s)
    ensures ByPriority(Insert(e, s))
  {
    var r := Insert(e, s);
    if s == [] || e.priority < s[0].priority {
      assert r == [e] + s;
      forall a, b | 0 <= a < b < |r| ensures r[a].priority <= r[b].priority {
        if a == 0 {
          assert r[b] == s[b - 1];
          if b > 1 {
            assert s[0].priority <= s[b - 1].priority;
          }
        } else {
          assert r[a] == s[a - 1] && r[b] == s[b - 1];
        }
      }
    } else {
      var t := Insert(e, s[1..]);
      assert r == [s[0]] + t;
      InsertKeepsOrder(e, s[1..]);
      forall i | 0 <= i < |s[1..]| ensures s[1..][i].priority >= s[0].priority {
        assert s[1..][i] == s[i + 1];
      }
      InsertAbove(e, s[1..], s[0].priority);
      forall a, b | 0 <= a < b < |r| ensures r[a].priority <= r[b].priority {
        if a == 0 {
          assert r[b] == t[b - 1];
        } else {
          assert r[a] == t[a - 1] && r[b] == t[b - 1];
        }
      }
    }
  }

  lemma {:induction false} InsertPermutes(e: Entry, s: seq<Entry>)
    ensures multiset(Insert(e, s)) == multiset(s) + multiset{e}
  {
    if s != [] && e.priority >= s[0].priority {
      InsertPermutes(e, s[1..]);
      assert s == [s[0]] + s[1..];
    }
  }

  lemma {:induction false} NoneOfPriority(s: seq<Entry>, p: int)
    requires forall i :: 0 <= i < |s| ==> s[i].priority > p
    ensures OfPriority(s, p) == []
  {
    if s != [] {
      NoneOfPriority(s[1..], p);
    }
  }

  lemma {:induction false} AllOfPriority(s: seq<Entry>, p: int)
    requires forall i :: 0 <= i < |s| ==> s[i].priority == p
    ensures OfPriority(s, p) == s
  {
    if s != [] {
      AllOfPriority(s[1..], p);
      assert s == [s[0]] + s[1..];
    }
  }

  lemma {:induction false} OfPriorityAppend(s: seq<Entry>, x: Entry, p: int)
    ensures OfPriority(s + [x], p) == OfPriority(s, p) + Own(x, p)
  {
    var t := s + [x];
    if s == [] {
      assert t == [x] && t[1..] == [];
    } else {
      assert t[0] == s[0] && t[1..] == s[1..] + [x];
      OfPriorityAppend(s[1..], x, p);
    }
  }

  lemma {:induction false} OfPriorityInsert(e: Entry, s: seq<Entry>, p: int)
    requires ByPriority(s)
    ensures OfPriority(Insert(e, s), p) == OfPriority(s, p) + Own(e, p)
  {
    if s == [] || e.priority < s[0].priority {
      assert ([e] + s)[1..] == s;
      if e.priority == p {
        NoneOfPriority(s, p);
      }
    } else {
      OfPriorityInsert(e, s[1..], p);
      assert ([s[0]] + Insert(e, s[1..]))[1..] == Insert(e, s[1..]);
    }
  }

  /** The sort orders by priority, keeps the entries, and keeps the order of
      the entries of each priority. */
  lemma SortByPriorityIsStable(es: seq<Entry>)
    ensures ByPriority(SortByPriority(es))
    ensures multiset(SortByPriority(es)) == multiset(es)
    ensures forall p :: OfPriority(SortByPriority(es), p) == OfPriority(es, p)
  {
    SortOrders(es);
    SortPermutes(es);
    forall p ensures OfPriority(SortByPriority(es), p) == OfPriority(es, p) {
      SortKeepsPriorityOrder(es, p);
    }
  }

  lemma {:induction false} SortOrders(es: seq<Entry>)
    ensures ByPriority(SortByPriority(es))
  {
    if es != [] {
      SortOrders(es[..|es| - 1]);
      InsertKeepsOrder(es[|es| - 1], SortByPriority(es[..|es| - 1]));
    }
  }

  lemma {:induction false} SortPermutes(es: seq<Entry>)
    ensures multiset(SortByPriority(es)) == multiset(es)
  {
    if es != [] {
      var init := es[..|es| - 1];
      SortPermutes(init);
      InsertPermutes(es[|es| - 1], SortByPriority(init));
      assert es == init + [es[|es| - 1]];
    }
  }

  lemma {:induction false} SortKeepsPriorityOrder(es: seq<Entry>, p: int)
    ensures OfPriority(SortByPriority(es), p) == OfPriority(es, p)
  {
    if es != [] {
      var init := es[..|es| - 1];
      var last := es[|es| - 1];
      SortKeepsPriorityOrder(init, p);
      SortOrders(init);
      OfPriorityInsert(last, SortByPriority(init), p);
      assert es == init + [last];
      OfPriorityAppend(init, last, p);
    }
  }

  /** When every entry has the same priority, the order is the given one. */
  lemma SamePriorityKeepsOrder(es: seq<Entry>, p: int)
    requires forall i :: 0 <= i < |es| ==> es[i].priority == p
    ensures SortByPriority(es) == es
  {
    SortByPriorityIsStable(es);
    var r := SortByPriority(es);
    forall i | 0 <= i < |r| ensures r[i].priority == p {
      assert r[i] in multiset(es);
    }
    AllOfPriority(r, p);
    AllOfPriority(es, p);
  }

  /** The built-in table is tried in its own order, and extra entries of
      priority 0 after it. */
  lemma BuiltinOrder(extra: seq<Entry>)
    requires forall i :: 0 <= i < |extra| ==> extra[i].priority == 0
    ensures SortByPriority(Builtins) == Builtins
    ensures SortByPriority(Builtins + extra) == Builtins + extra
  {
    BuiltinsAreTheNamespaceClasses();
    SamePriorityKeepsOrder(Builtins, 0);
    AppendSamePriority(Builtins, extra, 0);
  }

  lemma AppendSamePriority(es: seq<Entry>, extra: seq<Entry>, p: int)
    requires forall i :: 0 <= i < |es| ==> es[i].priority == p
    requires forall i :: 0 <= i < |extra| ==> extra[i].priority == p
    ensures SortByPriority(es + extra) == es + extra
  {
    var all := es + extra;
    forall i | 0 <= i < |all| ensures all[i].priority == p {
      if i < |es| {
        assert all[i] == es[i];
      } else {
        assert all[i] == extra[i - |es|];
      }
    }
    SamePriorityKeepsOrder(all, p);
  }

  // ---------------------------------------------------------------------
  // Stacking layers

  /** One round of `open`: `guess` on the archive at hand. */
  function GuessStep(cands: seq<Entry>, env: Env): Step {
    (a: Layer) => FirstMatch(cands, 0, a, env.mime(a), env)
  }

  /** `open`'s loop from `archive` with `rounds` guesses left. */
  function Resolve(cands: seq<Entry>, archive: Layer, rounds: nat, env: Env): Result<Layer> {
    Stacked(GuessStep(cands, env), archive, rounds)
  }

  /** The number of rounds `range(limit)` gives. */
  function Rounds(limit: int): (n: nat)
    ensures limit >= 0 ==> n == limit
    ensures limit < 0 ==> n == 0
  {
    if limit < 0 then 0 else limit
  }

  /** A round either stops or goes on from what `guess` found. */
  lemma ResolveRound(cands: seq<Entry>, archive: Layer, rounds: nat, env: Env, guessed: Result<Option<Layer>>)
    requires rounds >= 1
    requires guessed == FirstMatch(cands, 0, archive, env.mime(archive), env)
    ensures guessed.Err? ==> Resolve(cands, archive, rounds, env) == Err(guessed.exc)
    ensures guessed.Ok? && guessed.value.None? ==> Resolve(cands, archive, rounds, env) == Ok(archive)
    ensures guessed.Ok? && guessed.value.Some? ==>
      Resolve(cands, archive, rounds, env) == Resolve(cands, guessed.value.value, rounds - 1, env)
  {
    GuessStepApplies(cands, env, archive);
  }

  lemma GuessStepApplies(cands: seq<Entry>, env: Env, a: Layer)
    ensures GuessStep(cands, env)(a) == FirstMatch(cands, 0, a, env.mime(a), env)
  {
  }

  lemma GuessStepGrows(cands: seq<Entry>, env: Env)
    ensures StepGrows(GuessStep(cands, env))
    ensures StepKeepsValueErrors(GuessStep(cands, env))
  {
    var guess := GuessStep(cands, env);
    forall a: Layer
      ensures guess(a).Ok? && guess(a).value.Some? ==> Grows(a, guess(a).value.value)
      ensures guess(a).Err? ==> !guess(a).exc.ValueError?
    {
      assert guess(a) == FirstMatch(cands, 0, a, env.mime(a), env);
    }
  }

  /** The result keeps what the starting archive recorded and adds fewer
      layers than there were rounds: at most two classes and one tag each. */
  lemma ResolveExtends(cands: seq<Entry>, archive: Layer, rounds: nat, env: Env)
    requires Resolve(cands, archive, rounds, env).Ok?
    ensures rounds >= 1
    ensures var r := Resolve(cands, archive, rounds, env).value;
      && archive.decompressors <= r.decompressors
      && archive.compressions <= r.compressions
      && |r.decompressors| <= |archive.decompressors| + 2 * (rounds - 1)
      && |r.compressions| <= |archive.compressions| + (rounds - 1)
  {
    GuessStepGrows(cands, env);
    StackedExtends(GuessStep(cands, env), archive, rounds);
  }

  /** Nothing applies to the result any more. */
  lemma ResolveSettles(cands: seq<Entry>, archive: Layer, rounds: nat, env: Env)
    requires Resolve(cands, archive, rounds, env).Ok?
    ensures var r := Resolve(cands, archive, rounds, env).value;
      FirstMatch(cands, 0, r, env.mime(r), env) == Ok(None)
  {
    var guess := GuessStep(cands, env);
    StackedSettles(guess, archive, rounds);
    var r := Resolve(cands, archive, rounds, env).value;
    assert guess(r) == FirstMatch(cands, 0, r, env.mime(r), env);
  }

  /** A ValueError never escapes: the failure is the round limit or an
      exception of another class raised by a candidate. */
  lemma ResolveFailures(cands: seq<Entry>, archive: Layer, rounds: nat, env: Env)
    requires Resolve(cands, archive, rounds, env).Err?
    ensures !Resolve(cands, archive, rounds, env).exc.ValueError?
  {
    GuessStepGrows(cands, env);
    StackedFailures(GuessStep(cands, env), archive, rounds);
  }

  /** When some candidate always accepts, the limit is reached and the
      bare Exception is raised. */
  lemma EndlessStackingHitsLimit(cands: seq<Entry>, archive: Layer, rounds: nat, env: Env)
    requires forall a: Layer :: FirstMatch(cands, 0, a, env.mime(a), env).Ok? &&
                                FirstMatch(cands, 0, a, env.mime(a), env).value.Some?
    ensures Resolve(cands, archive, rounds, env) == Err(Exception(LimitMessage))
  {
    var guess := GuessStep(cands, env);
    forall a: Layer ensures guess(a).Ok? && guess(a).value.Some? {
      assert guess(a) == FirstMatch(cands, 0, a, env.mime(a), env);
    }
    StackedEndless(guess, archive, rounds);
  }

  /** An archive nothing applies to is returned as it is. */
  lemma UnmatchedIsKept(cands: seq<Entry>, archive: Layer, rounds: nat, env: Env)
    requires rounds >= 1
    requires forall j :: 0 <= j < |cands| ==> Passes(Attempt(cands[j].cls, archive, env.mime(archive), env))
    ensures Resolve(cands, archive, rounds, env) == Ok(archive)
  {
    FirstMatchWins(cands, 0, archive, env.mime(archive), env);
    ResolveRound(cands, archive, rounds, env, FirstMatch(cands, 0, archive, env.mime(archive), env));
  }

  /** One archive is found on the start, and nothing on that one. */
  lemma FoundThenKept(cands: seq<Entry>, start: Layer, inner: Layer, rounds: nat, env: Env)
    requires rounds >= 2
    requires FirstMatch(cands, 0, start, env.mime(start), env) == Ok(Some(inner))
    requires forall j :: 0 <= j < |cands| ==> Passes(Attempt(cands[j].cls, inner, env.mime(inner), env))
    ensures Resolve(cands, start, rounds, env) == Ok(inner)
  {
    FirstMatchWins(cands, 0, inner, env.mime(inner), env);
    GuessStepApplies(cands, env, start);
    GuessStepApplies(cands, env, inner);
    StackedTwoRounds(GuessStep(cands, env), start, inner, rounds);
  }

  // ---------------------------------------------------------------------
  // The opening archive

  /** The record of `ArchiveFile(fileobj, name, closefd)`, or the exception
      it raises. */
  function StartLayer(fileobj: Source, name: PyName, files: map<string, seq<int>>): (r: Result<Layer>)
    ensures r.Ok? ==> r.value.kind == ArchiveFile
    ensures fileobj.NoSource? ==> (r.Ok? <==> Truthy(name) && NameOrEmpty(name) in files)
    ensures fileobj.NoSource? && !Truthy(name) ==> r.Err? && r.exc.TypeError?
    ensures !fileobj.ArchiveSource? && r.Ok? ==> r.value.decompressors == [ArchiveFile] && r.value.compressions == []
  {
    if fileobj.NoSource? then
      if !Truthy(name) then Err(TypeError("Either name, fileobj must be specified"))
      else if NameOrEmpty(name) !in files then Err(OSError(Some(2), "No such file or directory", NameOrEmpty(name)))
      else Ok(Derive(ArchiveFile, NameOrEmpty(name), None, None, true))
    else
      Ok(Derive(ArchiveFile, NameOrEmpty(ArchiveFileName(fileobj, name)), SourceLayer(fileobj), None, Reader(fileobj).seekable))
  }

  /** `Guesser(decompressors, extra_decompressors, limit)` */
  class Guesser {
    const decompressors: seq<Entry>
    const limit: int

    constructor (decompressors: seq<Entry>, extra: seq<Entry>, limit: int)
      ensures this.decompressors == decompressors + extra && this.limit == limit
    {
      this.decompressors := decompressors + extra;
      this.limit := limit;
    }

    /** `guess(archive)`: the loop over the candidates by priority. */
    method Guess(archive: Layer, env: Env) returns (r: Result<Option<Layer>>)
      ensures r == FirstMatch(SortByPriority(decompressors), 0, archive, env.mime(archive), env)
    {
      var mime := env.mime(archive);
      var cands := SortByPriority(decompressors);
      var i := 0;
      while i < |cands|
        invariant 0 <= i <= |cands|
        invariant FirstMatch(cands, 0, archive, mime, env) == FirstMatch(cands, i, archive, mime, env)
      {
        var cls := cands[i].cls;
        if !(IsPack(archive.kind) && archive.kind == cls) {
          var name := ClassGuess(cls, mime, archive.realname, archive.decompressors);
          if name.Ok? {
            var avail := env.available(cls);
            if avail.Err? && !avail.exc.ValueError? {
              return Err(avail.exc);
            }
            if avail.Ok? {
              var built := Construct(cls, name.value, archive, env);
              if built.Ok? {
                return Ok(Some(built.value));
              }
              if !built.exc.ValueError? {
                return Err(built.exc);
              }
            }
          }
        }
        i := i + 1;
      }
      return Ok(None);
    }

    /** `open(name, fileobj, closefd)`: start from the file, then stack
        what `guess` finds, at most `limit` times. */
    method Open(name: PyName, fileobj: Source, closefd: bool, files: map<string, seq<int>>, env: Env)
      returns (r: Result<Layer>)
      ensures StartLayer(fileobj, name, files).Err? ==> r == Err(StartLayer(fileobj, name, files).exc)
      ensures StartLayer(fileobj, name, files).Ok? ==>
        r == Resolve(SortByPriority(decompressors), StartLayer(fileobj, name, files).value, Rounds(limit), env)
    {
      var file := NewArchiveFile(fileobj, name, closefd, files);
      if file.Err? {
        return Err(file.exc);
      }
      var start := file.value.Record();
      assert start == StartLayer(fileobj, name, files).value;
      r := Stack(start, env);
    }

    /** The loop of `open`: guess again on what was found, at most `limit`
        times. */
    method Stack(start: Layer, env: Env) returns (r: Result<Layer>)
      ensures r == Resolve(SortByPriority(decompressors), start, Rounds(limit), env)
    {
      ghost var cands := SortByPriority(decompressors);
      ghost var n := Rounds(limit);
      var archive := start;
      var i := 0;
      while i < limit
        invariant 0 <= i <= n
        invariant Resolve(cands, start, n, env) == Resolve(cands, archive, n - i, env)
      {
        var settled, result, next := Round(archive, env, n - i);
        if settled {
          return result;
        }
        archive := next;
        i := i + 1;
      }
      return Err(Exception(LimitMessage));
    }

    /** One pass of `open`'s loop body: the archive to go on with, or the
        outcome when the guess raised or found nothing. */
    method Round(archive: Layer, env: Env, ghost rounds: nat) returns (settled: bool, r: Result<Layer>, next: Layer)
      requires rounds >= 1
      ensures settled ==> r == Resolve(SortByPriority(decompressors), archive, rounds, env)
      ensures !settled ==> Resolve(SortByPriority(decompressors), archive, rounds, env)
                           == Resolve(SortByPriority(decompressors), next, rounds - 1, env)
    {
      var guessed := Guess(archive, env);
      ResolveRound(SortByPriority(decompressors), archive, rounds, env, guessed);
      if guessed.Err? {
        return true, Err(guessed.exc), archive;
      }
      if guessed.value.None? {
        return true, Ok(archive), archive;
      }
      return false, Ok(archive), guessed.value.value;
    }
  }

  /** The module-level `open`: a default guesser over the built-in table. */
  method Open(name: PyName, fileobj: Source, closefd: bool, files: map<string, seq<int>>, env: Env)
    returns (r: Result<Layer>)
    ensures StartLayer(fileobj, name, files).Err? ==> r == Err(StartLayer(fileobj, name, files).exc)
    ensures StartLayer(fileobj, name, files).Ok? ==>
      r == Resolve(Builtins, StartLayer(fileobj, name, files).value, DefaultLimit, env)
  {
    var g := new Guesser(Builtins, [], DefaultLimit);
    BuiltinOrder([]);
    assert Builtins + [] == Builtins;
    r := g.Open(name, fileobj, closefd, files, env);
  }

  // ---------------------------------------------------------------------
  // Worked cases

  const PlainText := "text/plain"

  /** An environment whose sniffer reports `first` for the opening file and
      plain text for everything stacked on it; every tool is found and every
      pipe starts. */
  function Sniffing(first: string): (env: Env)
    ensures forall a: Layer :: a.kind == ArchiveFile ==> env.mime(a) == first
    ensures forall a: Layer :: a.kind != ArchiveFile ==> env.mime(a) == PlainText
  {
    Env((a: Layer) => if a.kind == ArchiveFile then first else PlainText,
        (c: ClassId) => Ok(()), (c: ClassId, a: Layer) => Ok(()),
        (c: ClassId, a: Layer) => Ok([]), (c: ClassId, a: Layer) => Ok(""))
  }

  /** Every class of `cands` declares its MIME types, and `mime` is not
      among them. */
  predicate Undeclared(mime: string, cands: seq<Entry>) {
    forall j :: 0 <= j < |cands| ==>
      DeclOf(cands[j].cls).mimes.Some? && mime !in DeclOf(cands[j].cls).mimes.value
  }

  /** A class refuses a MIME type it does not declare. */
  lemma UndeclaredDeclined(cands: seq<Entry>, a: Layer, mime: string, env: Env)
    requires Undeclared(mime, cands)
    ensures forall j :: 0 <= j < |cands| ==> Passes(Attempt(cands[j].cls, a, mime, env))
  {
    forall j | 0 <= j < |cands|
      ensures ClassGuess(cands[j].cls, mime, a.realname, a.decompressors).Err?
    {
      var cls := cands[j].cls;
      assert DeclOf(cls).mimes.Some? && mime !in DeclOf(cls).mimes.value;
    }
  }

  /** A MIME type no built-in class declares is declined by every class of
      the intended table, and so of the shipped one. */
  lemma UnknownMimeDeclined(a: Layer, mime: string, env: Env)
    requires mime !in Gzip.Mimes + Bzip2.Mimes + Lzma.Mimes + Xz.Mimes + Zstd.Mimes
    requires mime !in ["application/x-tar", "application/zip", "application/x-rar", "application/x-7z-compressed"]
    ensures forall j :: 0 <= j < |IntendedBuiltins| ==> Passes(Attempt(IntendedBuiltins[j].cls, a, mime, env))
    ensures forall j :: 0 <= j < |Builtins| ==> Passes(Attempt(Builtins[j].cls, a, mime, env))
  {
    UnknownMimeUndeclared(mime);
    UndeclaredDeclined(IntendedBuiltins, a, mime, env);
    UndeclaredDeclined(Builtins, a, mime, env);
  }

  lemma UnknownMimeUndeclared(mime: string)
    requires mime !in Gzip.Mimes + Bzip2.Mimes + Lzma.Mimes + Xz.Mimes + Zstd.Mimes
    requires mime !in ["application/x-tar", "application/zip", "application/x-rar", "application/x-7z-compressed"]
    ensures Undeclared(mime, IntendedBuiltins) && Undeclared(mime, Builtins)
  {
    forall j | 0 <= j < |Builtins| ensures Builtins[j] == IntendedBuiltins[j] {
    }
  }

  /** What a class decoded is sniffed as plain text, which both tables
      decline. */
  lemma DecodedDeclined(inner: Layer, first: string)
    requires inner.kind != ArchiveFile
    ensures var env := Sniffing(first);
      forall j :: 0 <= j < |Builtins| ==> Passes(Attempt(Builtins[j].cls, inner, env.mime(inner), env))
    ensures var env := Sniffing(first);
      forall j :: 0 <= j < |IntendedBuiltins| ==> Passes(Attempt(IntendedBuiltins[j].cls, inner, env.mime(inner), env))
  {
    var env := Sniffing(first);
    assert env.mime(inner) == PlainText;
    UnknownMimeDeclined(inner, PlainText, env);
  }

  /** Gunzip turns "x.gz" into "x". */
  lemma GunzipNamesX()
    ensures Gzip.Guess("application/gzip", "x.gz") == Ok("x")
  {
    assert Lower(".gz") == ".gz" by {
      assert Lower(".gz")[0] == LowerChar('.') && Lower(".gz")[1] == LowerChar('g') && Lower(".gz")[2] == LowerChar('z');
    }
    Gzip.StripsGz("application/gzip", "x", ".gz");
    assert "x" + ".gz" == "x.gz";
  }

  /** In the first round Bunzip2 declines and Gunzip accepts. */
  lemma GzipFirstRound(start: Layer, env: Env)
    requires start == Derive(ArchiveFile, "x.gz", None, None, true)
    requires env.available(Gunzip).Ok? && env.spawn(Gunzip, start).Ok?
    ensures FirstMatch(Builtins, 0, start, "application/gzip", env)
      == Ok(Some(Derive(Gunzip, "x", Some(start), Some("gzip"), false)))
  {
    Bunzip2DeclinesGzip(start, env);
    GunzipAcceptsX(start, env);
    assert Builtins[0].cls == Bunzip2 && Builtins[1].cls == Gunzip;
    FirstTwo(Builtins, start, "application/gzip", env);
  }

  /** The first candidate declines and the second accepts. */
  lemma FirstTwo(cands: seq<Entry>, input: Layer, mime: string, env: Env)
    requires |cands| >= 2 && Attempt(cands[0].cls, input, mime, env).Declined?
    requires Attempt(cands[1].cls, input, mime, env).Accepted?
    ensures FirstMatch(cands, 0, input, mime, env) == Ok(Some(Attempt(cands[1].cls, input, mime, env).layer))
  {
    assert FirstMatch(cands, 0, input, mime, env) == FirstMatch(cands, 1, input, mime, env);
  }

  lemma Bunzip2DeclinesGzip(a: Layer, env: Env)
    ensures Attempt(Bunzip2, a, "application/gzip", env) == Declined
  {
    assert Bzip2.Guess("application/gzip", a.realname, a.decompressors).Err?;
  }

  /** Gunzip turns the gzip file "x.gz" into "x". */
  lemma GunzipAcceptsX(start: Layer, env: Env)
    requires start == Derive(ArchiveFile, "x.gz", None, None, true)
    requires env.available(Gunzip).Ok? && env.spawn(Gunzip, start).Ok?
    ensures Attempt(Gunzip, start, "application/gzip", env)
      == Accepted(Derive(Gunzip, "x", Some(start), Some("gzip"), false))
  {
    GunzipNamesX();
  }

  /** The candidate at `k` decides when all before it pass. */
  lemma FirstMatchAt(cands: seq<Entry>, k: nat, input: Layer, mime: string, env: Env)
    requires k < |cands| && !Passes(Attempt(cands[k].cls, input, mime, env))
    requires forall j :: 0 <= j < k ==> Passes(Attempt(cands[j].cls, input, mime, env))
    ensures FirstMatch(cands, 0, input, mime, env) == Outcome(Attempt(cands[k].cls, input, mime, env))
  {
    FirstMatchWins(cands, 0, input, mime, env);
  }

  /** "x.gz" sniffed as gzip is unwrapped once, to "x" with the "gzip" tag,
      and the plain text inside stops the search. */
  lemma GzipFileUnwrapsOnce()
    ensures var start := Derive(ArchiveFile, "x.gz", None, None, true);
      Resolve(Builtins, start, DefaultLimit, Sniffing("application/gzip"))
        == Ok(Derive(Gunzip, "x", Some(start), Some("gzip"), false))
  {
    var env := Sniffing("application/gzip");
    var start := Derive(ArchiveFile, "x.gz", None, None, true);
    var inner := Derive(Gunzip, "x", Some(start), Some("gzip"), false);
    assert env.mime(start) == "application/gzip";
    GzipFirstRound(start, env);
    DecodedDeclined(inner, "application/gzip");
    FoundThenKept(Builtins, start, inner, DefaultLimit, env);
  }

  /** The built-in classes all decline "application/x-zstd". */
  lemma ZstdMimeDeclinedByBuiltins(a: Layer, env: Env)
    ensures forall j :: 0 <= j < |Builtins| ==> Passes(Attempt(Builtins[j].cls, a, "application/x-zstd", env))
  {
    ZstdMimeUndeclared();
    UndeclaredDeclined(Builtins, a, "application/x-zstd", env);
  }

  lemma ZstdMimeUndeclared()
    ensures Undeclared("application/x-zstd", Builtins)
  {
  }

  /** "x.zst" sniffed as zstd is left alone by the shipped table, which has
      no zstd entry. */
  lemma ZstdFileKeptByBuiltins()
    ensures var start := Derive(ArchiveFile, "x.zst", None, None, true);
      Resolve(Builtins, start, DefaultLimit, Sniffing("application/x-zstd")) == Ok(start)
  {
    var env := Sniffing("application/x-zstd");
    var start := Derive(ArchiveFile, "x.zst", None, None, true);
    assert env.mime(start) == "application/x-zstd";
    ZstdMimeDeclinedByBuiltins(start, env);
    UnmatchedIsKept(Builtins, start, DefaultLimit, env);
  }

  /** With the intended table, the eight shipped classes decline the zstd
      file and Unzstd accepts it. */
  lemma ZstdFirstRound(start: Layer, env: Env)
    requires start == Derive(ArchiveFile, "x.zst", None, None, true)
    requires env.mime(start) == "application/x-zstd"
    requires env.available(Unzstd).Ok? && env.spawn(Unzstd, start).Ok?
    ensures FirstMatch(IntendedBuiltins, 0, start, env.mime(start), env)
      == Ok(Some(Derive(Unzstd, "x", Some(start), Some("zstd"), false)))
  {
    var mime := "application/x-zstd";
    ShippedDeclineZstd(start, env);
    UnzstdAcceptsX(start, env);
    FirstMatchAt(IntendedBuiltins, 8, start, mime, env);
  }

  /** In the intended table, the entries before Unzstd decline zstd data. */
  lemma ShippedDeclineZstd(a: Layer, env: Env)
    ensures forall j :: 0 <= j < 8 ==> Passes(Attempt(IntendedBuiltins[j].cls, a, "application/x-zstd", env))
  {
    ZstdMimeDeclinedByBuiltins(a, env);
    forall j | 0 <= j < 8 ensures IntendedBuiltins[j] == Builtins[j] {
    }
  }

  /** Unzstd turns the zstd file "x.zst" into "x". */
  lemma UnzstdAcceptsX(start: Layer, env: Env)
    requires start == Derive(ArchiveFile, "x.zst", None, None, true)
    requires env.available(Unzstd).Ok? && env.spawn(Unzstd, start).Ok?
    ensures IntendedBuiltins[8].cls == Unzstd
    ensures Attempt(Unzstd, start, "application/x-zstd", env)
      == Accepted(Derive(Unzstd, "x", Some(start), Some("zstd"), false))
  {
    UnzstdNamesX();
  }

  lemma UnzstdNamesX()
    ensures ClassGuess(Unzstd, "application/x-zstd", "x.zst", [ArchiveFile]) == Ok("x")
  {
    Zstd.Guesses("application/x-zstd", "x", "zst", [ArchiveFile]);
    assert "x" + "." + "zst" == "x.zst";
  }

  /** The intended table unwraps the same file to "x" with the "zstd" tag. */
  lemma ZstdFileUnwrappedByIntendedTable()
    ensures var start := Derive(ArchiveFile, "x.zst", None, None, true);
      Resolve(IntendedBuiltins, start, DefaultLimit, Sniffing("application/x-zstd"))
        == Ok(Derive(Unzstd, "x", Some(start), Some("zstd"), false))
  {
    var env := Sniffing("application/x-zstd");
    var start := Derive(ArchiveFile, "x.zst", None, None, true);
    var inner := Derive(Unzstd, "x", Some(start), Some("zstd"), false);
    assert env.mime(start) == "application/x-zstd";
    ZstdFirstRound(start, env);
    DecodedDeclined(inner, "application/x-zstd");
    FoundThenKept(IntendedBuiltins, start, inner, DefaultLimit, env);
  }
}
