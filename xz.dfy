/**
 * Unxz: a pipe through `unxz -c`, described entirely by its declaration; its
 * name rule is the base one.
 */
module Xz {

  import opened Errors
  import opened ArchiveCore
  import opened Helpers

  const Mimes: seq<string> := ["application/x-xz"]
  const Command: seq<string> := ["unxz", "-c"]

  const Decl := ClassDecl(Some(Mimes), Some(["xz"]), Some("xz"), false, Some(Command), None, false)

  /** The base guess under this declaration: only "application/x-xz" is accepted,
      "x.xz" becomes "x", and any other final extension stays. */
  lemma Guesses(mime: string, stem: string, ext: string, chain: seq<ClassId>)
    requires ext != [] && '.' !in ext
    ensures mime !in Mimes ==> BaseGuess(Unxz, Decl, mime, stem + "." + ext, chain).Err?
    ensures mime in Mimes && ext == "xz" ==> BaseGuess(Unxz, Decl, mime, stem + "." + ext, chain) == Ok(stem)
    ensures mime in Mimes && ext != "xz" ==>
      BaseGuess(Unxz, Decl, mime, stem + "." + ext, chain) == Ok(stem + "." + ext)
  {
    if mime in Mimes {
      if ext == "xz" {
        GuessStripsDeclaredExtension(Unxz, Decl, mime, stem, ext, chain);
      } else {
        GuessKeepsUndeclaredExtension(Unxz, Decl, mime, stem, ext, chain);
      }
    }
  }

  /** There are no fallback commands: a missing `unxz` gives the
      single-candidate message, and a found one replaces the program only. */
  lemma Availability(which: string -> Option<string>)
    ensures Candidates(Command, Decl.fallbacks) == ["unxz"]
    ensures MissingMessage(Candidates(Command, Decl.fallbacks)) == "cannot find executable"
    ensures Existing(["unxz"], which) != [] <==> Found(which, "unxz")
  {
    ExistingFirst(["unxz"], which);
  }
}
