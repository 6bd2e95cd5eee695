/**
 * Unlzma: a pipe through `unlzma -c`, described entirely by its declaration; its
 * name rule is the base one.
 */
module Lzma {

  import opened Errors
  import opened ArchiveCore
  import opened Helpers

  const Mimes: seq<string> := ["application/x-lzma"]
  const Command: seq<string> := ["unlzma", "-c"]

  const Decl := ClassDecl(Some(Mimes), Some(["lzma"]), Some("lzma"), false, Some(Command), None, false)

  /** The base guess under this declaration: only "application/x-lzma" is accepted,
      "x.lzma" becomes "x", and any other final extension stays. */
  lemma Guesses(mime: string, stem: string, ext: string, chain: seq<ClassId>)
    requires ext != [] && '.' !in ext
    ensures mime !in Mimes ==> BaseGuess(Unlzma, Decl, mime, stem + "." + ext, chain).Err?
    ensures mime in Mimes && ext == "lzma" ==> BaseGuess(Unlzma, Decl, mime, stem + "." + ext, chain) == Ok(stem)
    ensures mime in Mimes && ext != "lzma" ==>
      BaseGuess(Unlzma, Decl, mime, stem + "." + ext, chain) == Ok(stem + "." + ext)
  {
    if mime in Mimes {
      if ext == "lzma" {
        GuessStripsDeclaredExtension(Unlzma, Decl, mime, stem, ext, chain);
      } else {
        GuessKeepsUndeclaredExtension(Unlzma, Decl, mime, stem, ext, chain);
      }
    }
  }

  /** There are no fallback commands: a missing `unlzma` gives the
      single-candidate message, and a found one replaces the program only. */
  lemma Availability(which: string -> Option<string>)
    ensures Candidates(Command, Decl.fallbacks) == ["unlzma"]
    ensures MissingMessage(Candidates(Command, Decl.fallbacks)) == "cannot find executable"
    ensures Existing(["unlzma"], which) != [] <==> Found(which, "unlzma")
  {
    ExistingFirst(["unlzma"], which);
  }
}
