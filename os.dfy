/**
  The parts of Go's `os` package that the adapters and the filesystem use:
  the FileMode bit set, 64-bit sizes and times, and the fields of an
  os.FileInfo record.
 */
module Os {

  /** os.FileMode is a uint32: type bits at the top, Unix permissions in the low nine bits. */
  type FileMode = bv32

  const ModeDir: FileMode := 1 << 31
  const ModeSymlink: FileMode := 1 << 27
  const ModeDevice: FileMode := 1 << 26
  const ModeNamedPipe: FileMode := 1 << 25
  const ModeSocket: FileMode := 1 << 24
  const ModeCharDevice: FileMode := 1 << 21
  const ModeIrregular: FileMode := 1 << 19

  /** The mask of the type bits (os.ModeType). */
  const ModeType: FileMode :=
    ModeDir | ModeSymlink | ModeNamedPipe | ModeSocket | ModeDevice | ModeCharDevice | ModeIrregular

  /** The Unix permission bits, octal 0777 (os.ModePerm). */
  const ModePerm: FileMode := 0x1FF

  /** FileMode.IsDir */
  predicate IsDirMode(m: FileMode) {
    m & ModeDir != 0
  }

  /** FileMode.Perm */
  function Perm(m: FileMode): FileMode {
    m & ModePerm
  }

  /** The type bits of a mode, `m & os.ModeType`. */
  function TypeBits(m: FileMode): FileMode {
    m & ModeType
  }

  /** Go's int64, used for sizes and for Unix seconds. */
  type Int64 = x: int | -0x8000_0000_0000_0000 <= x < 0x8000_0000_0000_0000

  /** time.Unix(0, 0), in Unix seconds. */
  const Epoch: Int64 := 0

  /**
    The observable fields of an os.FileInfo record: Name, Size, Mode and
    ModTime (as Unix seconds, which is all that is ever compared).
   */
  datatype FileRecord = FileRecord(name: string, size: Int64, mode: FileMode, modTime: Int64)
}
