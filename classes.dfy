/**
 * The class-level declarations (`_mimes`, `_extensions`, `_compression`,
 * `_unique_instance`, `_command`, `_tool`, and whether the class is an
 * ArchivePack) of every decompressor class.
 */
module Classes {

  import opened Errors
  import opened ArchiveCore
  import Gzip
  import Bzip2
  import Lzma
  import Xz
  import Zstd
  import Tar
  import Zip
  import Rar
  import P7zip

  /** The class-level declarations of every class. */
  function DeclOf(cls: ClassId): (d: ClassDecl)
    ensures cls.Extra? ==> d == cls.decl
    ensures cls in {Untar, Unzip, Unrar, Un7z, ArchivePackBase} ==> d.isPack
    ensures cls in {Gunzip, Bunzip2, Unlzma, Unxz, Unzstd, ArchiveBase, ExternalPipeBase, ArchiveFile, ArchiveTemp} ==> !d.isPack
  {
    match cls
    case Gunzip => Gzip.Decl
    case Bunzip2 => Bzip2.Decl
    case Unlzma => Lzma.Decl
    case Unxz => Xz.Decl
    case Unzstd => Zstd.Decl
    case Untar => Tar.Decl
    case Unzip => Zip.Decl
    case Unrar => Rar.Decl
    case Un7z => P7zip.Decl
    case ArchivePackBase => ClassDecl(None, None, None, false, None, None, true)
    case Extra(_, decl) => decl
    case _ => ClassDecl(None, None, None, false, None, None, false)
  }

  /** `isinstance(archive, ArchivePack)` for an archive of this class. */
  predicate IsPack(cls: ClassId) {
    DeclOf(cls).isPack
  }
}
