/**
  The two os.FileInfo adapters of the package: `fileInfo`, which wraps a
  real record under another name and makes it read-only, and `dirInfo`, a
  synthesised directory entry with no record behind it.
 */
module FileInfo {

  import opened Wrappers
  import opened Os

  /** Octal 0444. */
  const ReadOnlyPerm: FileMode := 0x124

  /** fileInfo{name, FileInfo} and dirInfo{name}. */
  datatype Info =
    | File(name: string, wrapped: FileRecord)
    | Dir(name: string)
  {
    function Name(): string {
      name
    }

    /** The wrapped size for a file; 0 for a synthesised directory. */
    function Size(): Int64 {
      match this
      case File(_, w) => w.size
      case Dir(_) => 0
    }

    function Mode(): (m: FileMode)
      ensures Perm(m) == (if File? then ReadOnlyPerm else ModePerm)
      ensures TypeBits(m) == (if File? then TypeBits(wrapped.mode) else ModeDir)
      ensures m & !(ModeType | ModePerm) == 0
    {
      match this
      case File(_, w) => (w.mode & ModeType) | ReadOnlyPerm
      case Dir(_) => ModeDir | ModePerm
    }

    function ModTime(): Int64 {
      match this
      case File(_, w) => w.modTime
      case Dir(_) => Epoch
    }

    function IsDir(): (b: bool)
      ensures File? ==> (b <==> IsDirMode(wrapped.mode))
      ensures Dir? ==> b
    {
      IsDirMode(Mode())
    }

    /** Neither adapter exposes an underlying system object: Sys is nil. */
    function Sys(): Option<()> {
      None
    }
  }

  /**
    fileInfo: the name is the override, size and mtime pass through, the
    type bits survive, the permissions become 0444 and no other bit is set.
   */
  lemma FileInfoAdapts(name: string, rec: FileRecord)
    ensures File(name, rec).Name() == name
    ensures File(name, rec).Size() == rec.size
    ensures File(name, rec).ModTime() == rec.modTime
    ensures Perm(File(name, rec).Mode()) == ReadOnlyPerm
    ensures TypeBits(File(name, rec).Mode()) == TypeBits(rec.mode)
    ensures File(name, rec).Mode() == TypeBits(rec.mode) | ReadOnlyPerm
    ensures File(name, rec).IsDir() <==> IsDirMode(rec.mode)
    ensures TypeBits(rec.mode) == 0 ==> !File(name, rec).IsDir()
    ensures File(name, rec).Sys() == None
  {
    var m := File(name, rec).Mode();
    assert m == TypeBits(m) | Perm(m);
  }

  /** dirInfo: size 0, mode ModeDir|0777, epoch mtime, always a directory. */
  lemma DirInfoSynthesises(name: string)
    ensures Dir(name).Name() == name
    ensures Dir(name).Size() == 0
    ensures Dir(name).Mode() == ModeDir | ModePerm
    ensures Perm(Dir(name).Mode()) == ModePerm
    ensures TypeBits(Dir(name).Mode()) == ModeDir
    ensures Dir(name).ModTime() == Epoch
    ensures Dir(name).IsDir()
    ensures Dir(name).Sys() == None
  {
    var m := Dir(name).Mode();
    assert m == TypeBits(m) | Perm(m);
  }
}
