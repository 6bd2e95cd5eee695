/**
 * Unzstd: a pipe through `unzstd -c`, described entirely by its declaration; its
 * name rule is the base one.
 */
module Zstd {

  import opened Errors
  import opened ArchiveCore
  import opened Helpers

  const Mimes: seq<string> := ["application/x-zstd"]
  const Command: seq<string> := ["unzstd", "-c"]

  const Decl := ClassDecl(Some(Mimes), Some(["zst"]), Some("zstd"), false, Some(Command), None, false)

  /** The base guess under this declaration: only "application/x-zstd" is accepted,
      "x.zst" becomes "x", and any other final extension stays. */
  lemma Guesses(mime: string, stem: string, ext: string, chain: seq<ClassId>)
    requires ext != [] && '.' !in ext
    ensures mime !in Mimes ==> BaseGuess(Unzstd, Decl, mime, stem + "." + ext, chain).Err?
    ensures mime in Mimes && ext == "zst" ==> BaseGuess(Unzstd, Decl, mime, stem + "." + ext, chain) == Ok(stem)
    ensures mime in Mimes && ext != "zst" ==>
      BaseGuess(Unzstd, Decl, mime, stem + "." + ext, chain) == Ok(stem + "." + ext)
  {
    if mime in Mimes {
      if ext == "zst" {
        GuessStripsDeclaredExtension(Unzstd, Decl, mime, stem, ext, chain);
      } else {
        GuessKeepsUndeclaredExtension(Unzstd, Decl, mime, stem, ext, chain);
      }
    }
  }

  /** There are no fallback commands: a missing `unzstd` gives the
      single-candidate message, and a found one replaces the program only. */
  lemma Availability(which: string -> Option<string>)
    ensures Candidates(Command, Decl.fallbacks) == ["unzstd"]
    ensures MissingMessage(Candidates(Command, Decl.fallbacks)) == "cannot find executable"
    ensures Existing(["unzstd"], which) != [] <==> Found(which, "unzstd")
  {
    ExistingFirst(["unzstd"], which);
  }
}
