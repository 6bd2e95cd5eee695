/**
 * The table of built-in decompressors: every class of the decompressors
 * package that derives from Archive, in the order `inspect.getmembers`
 * lists them (by name), each with priority 0.
 */
module Registry {

  import opened ArchiveCore

  /** A registry entry `(priority, class)`. */
  datatype Entry = Entry(priority: int, cls: ClassId)

  // ---------------------------------------------------------------------
  // The package namespace

  /** What a name of the package namespace is bound to. */
  datatype Attr = ModuleAttr | ClassAttr(cls: ClassId, archiveSubclass: bool)

  /** The names the package binds: three modules, and one class from each
      star-import (each module exports exactly its `__all__` class). */
  const Namespace: map<string, Attr> := map[
    "sys" := ModuleAttr, "inspect" := ModuleAttr, "archive" := ModuleAttr,
    "Gunzip" := ClassAttr(Gunzip, true), "Bunzip2" := ClassAttr(Bunzip2, true),
    "Unlzma" := ClassAttr(Unlzma, true), "Un7z" := ClassAttr(Un7z, true),
    "Untar" := ClassAttr(Untar, true), "Unxz" := ClassAttr(Unxz, true),
    "Unzip" := ClassAttr(Unzip, true), "Unrar" := ClassAttr(Unrar, true)]

  /** Python's `<` on strings: code point by code point, a proper prefix first. */
  predicate StrLess(a: string, b: string) {
    if a == [] then b != []
    else if b == [] then false
    else if a[0] != b[0] then a[0] < b[0]
    else StrLess(a[1..], b[1..])
  }

  predicate Ascending(names: seq<string>) {
    forall i :: 0 < i < |names| ==> StrLess(names[i - 1], names[i])
  }

  /** The names of the registered classes, in `getmembers` order. */
  const BuiltinNames: seq<string> := ["Bunzip2", "Gunzip", "Un7z", "Unlzma", "Unrar", "Untar", "Unxz", "Unzip"]

  /** `builtin_decompressors` */
  const Builtins: seq<Entry> := [Entry(0, Bunzip2), Entry(0, Gunzip), Entry(0, Un7z), Entry(0, Unlzma),
                                 Entry(0, Unrar), Entry(0, Untar), Entry(0, Unxz), Entry(0, Unzip)]

  /** The classes of a table, in order. */
  function Classes(entries: seq<Entry>): seq<ClassId> {
    seq(|entries|, i requires 0 <= i < |entries| => entries[i].cls)
  }

  /** The table the test suite expects, with the zstd filter registered. */
  const IntendedBuiltins: seq<Entry> := Builtins + [Entry(0, Unzstd)]

  /** The table is exactly the namespace's Archive subclasses, listed by
      ascending name, each with priority 0. */
  lemma BuiltinsAreTheNamespaceClasses()
    ensures |Builtins| == |BuiltinNames|
    ensures forall i :: 0 <= i < |Builtins| ==> Builtins[i].priority == 0
    ensures Ascending(BuiltinNames)
    ensures forall i :: 0 <= i < |BuiltinNames| ==>
      BuiltinNames[i] in Namespace && Namespace[BuiltinNames[i]] == ClassAttr(Builtins[i].cls, true)
    ensures forall n :: n in Namespace && Namespace[n].ClassAttr? && Namespace[n].archiveSubclass ==> n in BuiltinNames
  {
    NamesAscending();
    NamespaceHoldsBuiltins();
    OnlyBuiltinsInNamespace();
  }

  lemma NamesAscending()
    ensures Ascending(BuiltinNames)
  {
    assert StrLess("Bunzip2", "Gunzip");
    assert StrLess("Gunzip", "Un7z");
    assert StrLess("n7z", "nlzma");
    assert StrLess("Un7z", "Unlzma");
    assert StrLess("lzma", "rar");
    assert StrLess("Unlzma", "Unrar");
    assert StrLess("rar", "tar");
    assert StrLess("Unrar", "Untar");
    assert StrLess("tar", "xz");
    assert StrLess("Untar", "Unxz");
    assert StrLess("xz", "zip");
    assert StrLess("Unxz", "Unzip");
  }

  lemma NamespaceHoldsBuiltins()
    ensures forall i :: 0 <= i < |BuiltinNames| ==>
      BuiltinNames[i] in Namespace && Namespace[BuiltinNames[i]] == ClassAttr(Builtins[i].cls, true)
  {
    forall i | 0 <= i < |BuiltinNames|
      ensures BuiltinNames[i] in Namespace && Namespace[BuiltinNames[i]] == ClassAttr(Builtins[i].cls, true)
    {
    }
  }

  lemma OnlyBuiltinsInNamespace()
    ensures forall n :: n in Namespace && Namespace[n].ClassAttr? && Namespace[n].archiveSubclass ==> n in BuiltinNames
  {
    forall n | n in Namespace && Namespace[n].ClassAttr? && Namespace[n].archiveSubclass
      ensures n in BuiltinNames
    {
      assert n in Namespace.Keys;
      assert n != "sys" && n != "inspect" && n != "archive";
    }
  }

  /** The zstd filter is declared but never registered: no import binds it
      in the package namespace. */
  lemma UnzstdNotBuiltin()
    ensures Unzstd !in Classes(Builtins)
    ensures "Unzstd" !in Namespace
  {
    UnzstdNotInTable();
    UnzstdNotInNamespace();
  }

  lemma UnzstdNotInTable()
    ensures Unzstd !in Classes(Builtins)
  {
    var cs := Classes(Builtins);
    forall i | 0 <= i < |cs| ensures cs[i] != Unzstd {
      assert cs[i] == Builtins[i].cls;
    }
  }

  lemma UnzstdNotInNamespace()
    ensures "Unzstd" !in Namespace
  {
  }

  /** The intended table keeps the name order and adds the zstd filter. */
  lemma IntendedBuiltinsRegisterZstd()
    ensures Unzstd in Classes(IntendedBuiltins)
    ensures Ascending(BuiltinNames + ["Unzstd"])
    ensures forall i :: 0 <= i < |IntendedBuiltins| ==> IntendedBuiltins[i].priority == 0
    ensures IntendedBuiltins[..|Builtins|] == Builtins
  {
    assert Classes(IntendedBuiltins)[8] == Unzstd;
    assert StrLess("zip", "zstd");
    assert StrLess("Unzip", "Unzstd");
    BuiltinsAreTheNamespaceClasses();
  }
}
