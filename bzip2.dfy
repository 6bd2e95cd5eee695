/**
 * Bunzip2: a pipe through `bunzip2` whose name rule is the base rule plus
 * ".tar" for the tar-bundle suffixes.
 */
module Bzip2 {

  import opened Errors
  import opened Text
  import opened ArchiveCore

  const Mimes: seq<string> := ["application/x-bzip2"]
  const Extensions: seq<string> := ["bz2", "bz", "tbz2", "tbz"]

  const Decl := ClassDecl(Some(Mimes), Some(Extensions), Some("bzip2"), false, Some(["bunzip2"]), None, false)

  /** Whether the original name (before stripping, case-sensitively) is a
      bzip2-compressed tar bundle. */
  predicate IsTarName(name: string) {
    EndsWith(name, ".tbz2") || EndsWith(name, ".tbz")
  }

  /** `Bunzip2._guess`: the base guess, with ".tar" appended for tar bundles. */
  function Guess(mime: string, name: string, chain: seq<ClassId>): (r: Result<string>)
    ensures r.Err? <==> mime !in Mimes
    ensures r.Err? ==> r.exc.ValueError?
    ensures r.Ok? && IsTarName(name) ==> r.value == StripExtension(name, Extensions) + ".tar"
    ensures r.Ok? && !IsTarName(name) ==> r.value == StripExtension(name, Extensions)
  {
    var isTar := IsTarName(name);
    var base := BaseGuess(Bunzip2, Decl, mime, name, chain);
    if base.Err? then base
    else Ok(if isTar then base.value + ".tar" else base.value)
  }

  /** `Bunzip2._guess` over the base guess as written, whose search can fail
      on a name with a newline. */
  function GuessAsWritten(mime: string, name: string, chain: seq<ClassId>): Result<string> {
    var base := BaseGuessAsWritten(Bunzip2, Decl, mime, name, chain);
    if base.Err? then base
    else Ok(if IsTarName(name) then base.value + ".tar" else base.value)
  }

  /** On names without a newline the code as written gives the guess above,
      so every lemma below holds of it for such names; on "a\nb" it raises
      AttributeError whatever the MIME. */
  lemma GuessAsWrittenAgrees(mime: string, name: string, chain: seq<ClassId>)
    ensures '\n' !in name ==> GuessAsWritten(mime, name, chain) == Guess(mime, name, chain)
    ensures GuessAsWritten(mime, "a\nb", chain).Err? && GuessAsWritten(mime, "a\nb", chain).exc.AttributeError?
  {
    if '\n' !in name {
      GuessAgreesWithoutNewline(Bunzip2, Decl, mime, name, chain);
    }
    NewlineNameRaises(Bunzip2, Decl, mime, chain);
  }

  /** "x.tbz2" and "x.tbz" become "x.tar". */
  lemma TarBundle(mime: string, stem: string, ext: string, chain: seq<ClassId>)
    requires mime in Mimes && ext in ["tbz2", "tbz"]
    ensures Guess(mime, stem + "." + ext, chain) == Ok(stem + ".tar")
  {
    GuessStripsDeclaredExtension(Bunzip2, Decl, mime, stem, ext, chain);
    TarName(stem, ext);
    TarGuess(mime, stem + "." + ext, chain);
  }

  lemma TarName(stem: string, ext: string)
    requires ext in ["tbz2", "tbz"]
    ensures IsTarName(stem + "." + ext)
  {
    assert stem + "." + ext == stem + ("." + ext);
    if ext == "tbz2" {
      assert "." + ext == ".tbz2";
      EndsWithAppended(stem, ".tbz2");
    } else {
      assert "." + ext == ".tbz";
      EndsWithAppended(stem, ".tbz");
    }
  }

  /** A tar bundle's guess is the base guess with ".tar" appended. */
  lemma TarGuess(mime: string, name: string, chain: seq<ClassId>)
    requires mime in Mimes && IsTarName(name)
    ensures BaseGuess(Bunzip2, Decl, mime, name, chain).Ok?
    ensures Guess(mime, name, chain) == Ok(BaseGuess(Bunzip2, Decl, mime, name, chain).value + ".tar")
  {
  }

  /** "x.bz2" and "x.bz" become "x", with nothing appended. */
  lemma PlainBzip2(mime: string, stem: string, ext: string, chain: seq<ClassId>)
    requires mime in Mimes && ext in ["bz2", "bz"]
    ensures Guess(mime, stem + "." + ext, chain) == Ok(stem)
  {
    GuessStripsDeclaredExtension(Bunzip2, Decl, mime, stem, ext, chain);
    var name := stem + "." + ext;
    assert !IsTarName(name) by {
      assert name[|name| - 1] == ext[|ext| - 1];
      assert name[|name| - 3] == (if ext == "bz" then '.' else 'b');
    }
  }

  /** The suffix test is case-sensitive: "x.TBZ" is neither stripped nor
      given ".tar". */
  lemma UpperCaseKept(mime: string, stem: string, chain: seq<ClassId>)
    requires mime in Mimes
    ensures Guess(mime, stem + ".TBZ", chain) == Ok(stem + ".TBZ")
  {
    GuessKeepsUndeclaredExtension(Bunzip2, Decl, mime, stem, "TBZ", chain);
    assert stem + "." + "TBZ" == stem + ".TBZ";
    var name := stem + ".TBZ";
    assert name[|name| - 1] == 'Z';
  }
}
