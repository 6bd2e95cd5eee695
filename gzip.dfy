/**
 * Gunzip: a pipe through `gunzip` with its own name rule, a table of
 * suffixes tested case-insensitively and cut from the original name.
 */
module Gzip {

  import opened Errors
  import opened Text
  import opened ArchiveCore

  const Mimes: seq<string> := ["application/x-gzip", "application/gzip"]

  const Decl := ClassDecl(Some(Mimes), Some(["gz"]), Some("gzip"), false, Some(["gunzip"]), None, false)

  /** `Gunzip._guess`: the MIME type is checked before the name is looked at;
      suffixes are tested on the lowered name and cut from the original one;
      the chain is never consulted. */
  function Guess(mime: string, name: string): (r: Result<string>)
    ensures r.Err? <==> mime !in Mimes
    ensures r.Err? ==> r.exc.ValueError?
    ensures r.Ok? ==> |r.value| <= |name|
    ensures r.Ok? && |name| < 4 ==> StartsWith(name, r.value)
    ensures r.Ok? && |name| >= 4 ==> StartsWith(r.value, name[..|name| - 4])
  {
    if mime !in Mimes then Err(ValueError("not a gzip compression"))
    else
      var lowered := Lower(name);
      if EndsWith(lowered, ".gz") || EndsWith(lowered, "-gz") then Ok(name[..|name| - 3])
      else if EndsWith(lowered, ".z") || EndsWith(lowered, "-z") || EndsWith(lowered, "_z") then Ok(name[..|name| - 2])
      else if EndsWith(lowered, ".tgz") || EndsWith(lowered, ".taz") then Ok(name[..|name| - 4] + ".tar")
      else Ok(name)
  }

  /** The lowered name ends with the lowered suffix. */
  lemma LoweredTail(stem: string, suffix: string)
    ensures Lower(stem + suffix)[|stem|..] == Lower(suffix)
  {
    LowerSuffix(stem + suffix, |suffix|);
    assert (stem + suffix)[|stem|..] == suffix;
  }

  /** ".gz" and "-gz", in any case, are cut and the stem keeps its case. */
  lemma StripsGz(mime: string, stem: string, suffix: string)
    requires mime in Mimes && Lower(suffix) in [".gz", "-gz"]
    ensures Guess(mime, stem + suffix) == Ok(stem)
  {
    LoweredTail(stem, suffix);
    assert (stem + suffix)[..|stem|] == stem;
  }

  /** ".z", "-z" and "_z", in any case, are cut. */
  lemma StripsZ(mime: string, stem: string, suffix: string)
    requires mime in Mimes && Lower(suffix) in [".z", "-z", "_z"]
    ensures Guess(mime, stem + suffix) == Ok(stem)
  {
    var name := stem + suffix;
    LoweredTail(stem, suffix);
    var lowered := Lower(name);
    assert lowered[|name| - 2] == Lower(suffix)[0];
    assert !EndsWith(lowered, ".gz") && !EndsWith(lowered, "-gz") by {
      if |lowered| >= 3 {
        assert lowered[|name| - 3..][1] == lowered[|name| - 2];
      }
    }
    assert name[..|stem|] == stem;
  }

  /** ".tgz" and ".taz", in any case, become ".tar". */
  lemma TarSuffix(mime: string, stem: string, suffix: string)
    requires mime in Mimes && Lower(suffix) in [".tgz", ".taz"]
    ensures Guess(mime, stem + suffix) == Ok(stem + ".tar")
  {
    var name := stem + suffix;
    LoweredTail(stem, suffix);
    TarEndingOnly(Lower(name));
    assert name[..|stem|] == stem;
  }

  /** The suffixes `Gunzip._guess` recognises, tested on the lowered name. */
  predicate Suffixed(lowered: string) {
    || EndsWith(lowered, ".gz") || EndsWith(lowered, "-gz")
    || EndsWith(lowered, ".z") || EndsWith(lowered, "-z") || EndsWith(lowered, "_z")
    || EndsWith(lowered, ".tgz") || EndsWith(lowered, ".taz")
  }

  /** A name is changed exactly when it carries one of the suffixes: any
      other name is returned as it is. */
  lemma ChangedExactlyWhenSuffixed(mime: string, name: string)
    requires mime in Mimes
    ensures Guess(mime, name).value == name <==> !Suffixed(Lower(name))
  {
    var lowered := Lower(name);
    var n := |name|;
    if && !(EndsWith(lowered, ".gz") || EndsWith(lowered, "-gz"))
       && !(EndsWith(lowered, ".z") || EndsWith(lowered, "-z") || EndsWith(lowered, "_z"))
       && (EndsWith(lowered, ".tgz") || EndsWith(lowered, ".taz"))
    {
      assert lowered[n - 1] == lowered[n - 4..][3] == 'z';
      assert name[n - 1] != 'r';
      assert Guess(mime, name).value[n - 1] == ".tar"[3];
    }
  }

  /** A lowered name ending in ".tgz" or ".taz" matches only the tar rule. */
  lemma TarEndingOnly(l: string)
    requires |l| >= 4 && l[|l| - 4..] in [".tgz", ".taz"]
    ensures !EndsWith(l, ".gz") && !EndsWith(l, "-gz")
    ensures !EndsWith(l, ".z") && !EndsWith(l, "-z") && !EndsWith(l, "_z")
    ensures EndsWith(l, ".tgz") || EndsWith(l, ".taz")
  {
    var t := l[|l| - 4..];
    assert l[|l| - 3] == t[1] == 't';
    assert l[|l| - 2] == t[2] && (t[2] == 'g' || t[2] == 'a');
    assert l[|l| - 3..][0] == l[|l| - 3];
    assert l[|l| - 2..][0] == l[|l| - 2];
  }
}
