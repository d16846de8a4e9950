/**
  The read-only filesystem over go-bindata assets. It is built from three
  lookups generated with the assets (Asset: path to bytes, AssetInfo: path
  to record, AssetDir: directory to child names) and answers Open, Stat,
  Lstat, ReadDir and String. The lookups are maps; an absent lookup is the
  empty map, so through it every path is missing.
 */
module BindataFs {

  import opened Wrappers
  import opened Os
  import opened Paths
  import opened FileInfo

  type Bytes = seq<bv8>

  /** The one error kind: the not-found error whose text is msgNotFound(op, path). */
  datatype PathError = NotFound(op: string, path: string)

  const NoSuchFile: string := ": no such file or directory"

  /** The error text, "<op> <path>: no such file or directory" (msgNotFound). */
  function Message(e: PathError): (s: string)
    ensures |s| == |e.op| + 1 + |e.path| + |NoSuchFile|
    ensures s[..|e.op|] == e.op && s[|e.op|] == ' '
    ensures s[|e.op| + 1..|s| - |NoSuchFile|] == e.path
    ensures s[|s| - |NoSuchFile|..] == NoSuchFile
  {
    e.op + " " + e.path + NoSuchFile
  }

  datatype Result<T> = Ok(value: T) | Err(error: PathError)

  datatype FileSystem = FileSystem(
    namespace: string,
    asset: map<string, Bytes>,
    assetDir: map<string, seq<string>>,
    assetInfo: map<string, FileRecord>)

  /** bindatafs.New(name, Asset, AssetDir, AssetInfo); a nil lookup finds nothing. */
  function New(
    namespace: string,
    asset: Option<map<string, Bytes>>,
    assetDir: Option<map<string, seq<string>>>,
    assetInfo: Option<map<string, FileRecord>>): (fs: FileSystem)
    ensures fs.namespace == namespace
    ensures asset.None? ==> fs.asset == map[]
    ensures assetDir.None? ==> fs.assetDir == map[]
    ensures assetInfo.None? ==> fs.assetInfo == map[]
    ensures asset.Some? ==> fs.asset == asset.value
    ensures assetDir.Some? ==> fs.assetDir == assetDir.value
    ensures assetInfo.Some? ==> fs.assetInfo == assetInfo.value
  {
    FileSystem(
      namespace,
      if asset.Some? then asset.value else map[],
      if assetDir.Some? then assetDir.value else map[],
      if assetInfo.Some? then assetInfo.value else map[])
  }

  /** The namespace label given to New. */
  function String(fs: FileSystem): string {
    fs.namespace
  }

  predicate HasLeadingSlash(p: string) {
    |p| > 0 && p[0] == '/'
  }

  /** Paths are looked up with one leading slash removed. */
  function Normalize(p: string): (q: string)
    ensures HasLeadingSlash(p) ==> "/" + q == p
    ensures !HasLeadingSlash(p) ==> q == p
  {
    if HasLeadingSlash(p) then p[1..] else p
  }

  /** The bytes of a file; a directory or a missing path is NotFound("Open", path). */
  function Open(fs: FileSystem, p: string): (r: Result<Bytes>)
    ensures r.Ok? <==> Normalize(p) !in fs.assetDir && Normalize(p) in fs.asset
    ensures r.Ok? ==> r.value == fs.asset[Normalize(p)]
    ensures r.Err? ==> r.error == NotFound("Open", Normalize(p))
  {
    var q := Normalize(p);
    if q in fs.assetDir then Err(NotFound("Open", q))
    else if q in fs.asset then Ok(fs.asset[q])
    else Err(NotFound("Open", q))
  }

  /**
    A directory entry for a directory key, the wrapped record for a file,
    both named by the path's base name; otherwise NotFound("Stat", path).
   */
  function Stat(fs: FileSystem, p: string): (r: Result<Info>)
    ensures r.Err? <==> Normalize(p) !in fs.assetDir && Normalize(p) !in fs.assetInfo
    ensures r.Err? ==> r.error == NotFound("Stat", Normalize(p))
    ensures r.Ok? ==> r.value.Name() == Base(Normalize(p))
    ensures r.Ok? ==> (r.value.Dir? <==> Normalize(p) in fs.assetDir)
    ensures r.Ok? && r.value.File? ==>
      Normalize(p) in fs.assetInfo && r.value.wrapped == fs.assetInfo[Normalize(p)]
  {
    var q := Normalize(p);
    if q in fs.assetDir then Ok(Dir(Base(q)))
    else if q in fs.assetInfo then Ok(File(Base(q), fs.assetInfo[q]))
    else Err(NotFound("Stat", q))
  }

  /** There are no symbolic links: Lstat is Stat, error text included. */
  function Lstat(fs: FileSystem, p: string): (r: Result<Info>)
    ensures r == Stat(fs, p)
    ensures r.Err? ==> r.error == NotFound("Stat", Normalize(p))
  {
    Stat(fs, p)
  }

  /** The entry ReadDir lists for child `name` of directory `dir`. */
  function Entry(fs: FileSystem, dir: string, name: string): (r: Result<Info>)
    ensures r.Err? <==> Join(dir, name) !in fs.assetDir && Join(dir, name) !in fs.assetInfo
    ensures r.Err? ==> r.error == NotFound("ReadDir", Join(dir, name))
    ensures r.Ok? ==> r.value.Name() == name
    ensures r.Ok? ==> (r.value.Dir? <==> Join(dir, name) in fs.assetDir)
    ensures r.Ok? && r.value.File? ==>
      Join(dir, name) in fs.assetInfo && r.value.wrapped == fs.assetInfo[Join(dir, name)]
  {
    var full := Join(dir, name);
    if full in fs.assetDir then Ok(Dir(name))
    else if full in fs.assetInfo then Ok(File(name, fs.assetInfo[full]))
    else Err(NotFound("ReadDir", full))
  }

  /** The entries of `names` in order, or the error of the first child that has none. */
  function Entries(fs: FileSystem, dir: string, names: seq<string>): (r: Result<seq<Info>>)
    ensures r.Ok? <==> forall i :: 0 <= i < |names| ==> Entry(fs, dir, names[i]).Ok?
    ensures r.Ok? ==> |r.value| == |names|
    ensures r.Ok? ==> forall i :: 0 <= i < |names| ==> Entry(fs, dir, names[i]) == Ok(r.value[i])
    ensures r.Err? ==> exists i :: 0 <= i < |names| && Entry(fs, dir, names[i]) == Err(r.error)
                                  && forall j :: 0 <= j < i ==> Entry(fs, dir, names[j]).Ok?
  {
    if names == [] then Ok([])
    else
      match Entry(fs, dir, names[0])
      case Err(e) => Err(e)
      case Ok(first) =>
        match Entries(fs, dir, names[1..])
        case Err(e) => Err(e)
        case Ok(rest) => Ok([first] + rest)
  }

  /**
    The entries of a directory's declared children, in order; a path that is
    not a directory is NotFound("ReadDir", path).
   */
  function ReadDir(fs: FileSystem, p: string): (r: Result<seq<Info>>)
    ensures Normalize(p) !in fs.assetDir ==> r == Err(NotFound("ReadDir", Normalize(p)))
    ensures r.Ok? ==> Normalize(p) in fs.assetDir && |r.value| == |fs.assetDir[Normalize(p)]|
    ensures r.Ok? ==> forall i :: 0 <= i < |r.value| ==>
      Entry(fs, Normalize(p), fs.assetDir[Normalize(p)][i]) == Ok(r.value[i])
    ensures r.Err? && Normalize(p) in fs.assetDir ==>
      exists c :: c in fs.assetDir[Normalize(p)] && Entry(fs, Normalize(p), c) == Err(r.error)
  {
    var q := Normalize(p);
    if q !in fs.assetDir then Err(NotFound("ReadDir", q))
    else Entries(fs, q, fs.assetDir[q])
  }

  /**
    What this model assumes of the generated tables (go-bindata's default
    output, which keeps file metadata): directory keys are the root "" or
    clean paths, asset paths carry no leading slash, every declared child is
    a simple name that exists as a directory or an asset, every asset has a
    record of a regular file whose size is its byte count, and no path is
    both a file and a directory.
   */
  predicate WellFormed(fs: FileSystem) {
    && (forall d :: d in fs.assetDir ==> d == "" || CleanPath(d))
    && (forall d, c :: d in fs.assetDir && c in fs.assetDir[d] ==>
          SimpleName(c) && (Join(d, c) in fs.assetDir || Join(d, c) in fs.assetInfo))
    && (forall f :: f in fs.asset ==> f in fs.assetInfo && fs.assetInfo[f].size == |fs.asset[f]|)
    && (forall f :: f in fs.assetInfo ==>
          f in fs.asset && !HasLeadingSlash(f) && TypeBits(fs.assetInfo[f].mode) == 0)
    && fs.asset.Keys !! fs.assetDir.Keys
  }

  // ---------------------------------------------------------------------
  // The error text determines the error

  predicate NoSpace(s: string) {
    forall j :: 0 <= j < |s| ==> s[j] != ' '
  }

  /** Index of the first ' ' in s, or -1 when there is none. */
  function FirstSpace(s: string): (i: int)
    ensures -1 <= i < |s|
    ensures 0 <= i ==> s[i] == ' ' && NoSpace(s[..i])
    ensures i < 0 ==> NoSpace(s)
  {
    if |s| == 0 then -1
    else if s[0] == ' ' then 0
    else
      var k := FirstSpace(s[1..]);
      assert forall j :: 1 <= j < |s| ==> s[j] == s[1..][j - 1];
      if k < 0 then -1 else k + 1
  }

  /** Reads op and path back out of a not-found message. */
  function ParseMessage(s: string): (e: Option<PathError>)
    ensures e.Some? ==> Message(e.value) == s && NoSpace(e.value.op)
  {
    if |s| < |NoSuchFile| || s[|s| - |NoSuchFile|..] != NoSuchFile then None
    else
      var head := s[..|s| - |NoSuchFile|];
      var i := FirstSpace(head);
      if i < 0 then None
      else
        assert head == head[..i] + " " + head[i + 1..];
        assert s == head + NoSuchFile;
        Some(NotFound(head[..i], head[i + 1..]))
  }

  /** The message of an error whose operation name has no space gives back that error. */
  lemma {:induction false} ParseMessageInvertsMessage(e: PathError)
    requires NoSpace(e.op)
    ensures ParseMessage(Message(e)) == Some(e)
  {
    var s := Message(e);
    var head := e.op + " " + e.path;
    assert s == head + NoSuchFile;
    assert s[..|s| - |NoSuchFile|] == head;
    assert s[|s| - |NoSuchFile|..] == NoSuchFile;
    var i := FirstSpace(head);
    assert head[|e.op|] == ' ';
    assert forall j :: 0 <= j < |e.op| ==> head[j] == e.op[j];
    assert i == |e.op|;
    assert head[..i] == e.op;
    assert head[i + 1..] == e.path;
  }

  /** Distinct errors have distinct messages, so matching on the text is sound. */
  lemma MessageIsInjective(e1: PathError, e2: PathError)
    requires NoSpace(e1.op) && NoSpace(e2.op)
    ensures Message(e1) == Message(e2) <==> e1 == e2
  {
    ParseMessageInvertsMessage(e1);
    ParseMessageInvertsMessage(e2);
  }

  // ---------------------------------------------------------------------
  // The metadata shape the tests require of an entry (fileInfoEqual)

  /** The accessor that a comparison found different. */
  datatype Field = NameDiffers | IsDirDiffers | SizeDiffers | ModeDiffers | ModTimeDiffers

  /**
    Compares the record of the asset on disk with the entry the filesystem
    gives, in the tests' order; None when they agree. A directory must come
    out with size 0, type ModeDir, permissions 0777 and the epoch as mtime;
    a file with the disk size, permissions 0444 and the disk mtime.
   */
  function FileInfoMismatch(src: FileRecord, target: Info): (r: Option<Field>)
    ensures r == None <==>
      && src.name == target.Name()
      && IsDirMode(src.mode) == target.IsDir()
      && (if IsDirMode(src.mode) then
            && target.Size() == 0
            && TypeBits(target.Mode()) == ModeDir
            && Perm(target.Mode()) == ModePerm
            && target.ModTime() == Epoch
          else
            && src.size == target.Size()
            && Perm(target.Mode()) == ReadOnlyPerm
            && src.modTime == target.ModTime())
    ensures r == Some(NameDiffers) <==> src.name != target.Name()
    ensures r == Some(IsDirDiffers) <==> src.name == target.Name() && IsDirMode(src.mode) != target.IsDir()
  {
    if src.name != target.Name() then Some(NameDiffers)
    else if IsDirMode(src.mode) != target.IsDir() then Some(IsDirDiffers)
    else if IsDirMode(src.mode) then
      if target.Size() != 0 then Some(SizeDiffers)
      else if TypeBits(target.Mode()) != ModeDir then Some(ModeDiffers)
      else if Perm(target.Mode()) != ModePerm then Some(ModeDiffers)
      else if target.ModTime() != Epoch then Some(ModTimeDiffers)
      else None
    else if src.size != target.Size() then Some(SizeDiffers)
    else if Perm(target.Mode()) != ReadOnlyPerm then Some(ModeDiffers)
    else if src.modTime != target.ModTime() then Some(ModTimeDiffers)
    else None
  }

  predicate FileInfoEqual(src: FileRecord, target: Info) {
    FileInfoMismatch(src, target).None?
  }

  // ---------------------------------------------------------------------
  // Open

  /** Open on an asset path gives exactly that asset's bytes. */
  lemma OpenReadsAsset(fs: FileSystem, p: string)
    requires WellFormed(fs) && Normalize(p) in fs.asset
    ensures Open(fs, p) == Ok(fs.asset[Normalize(p)])
  {
  }

  /** A directory cannot be opened as a byte stream. */
  lemma OpenDirectoryFails(fs: FileSystem, p: string)
    requires Normalize(p) in fs.assetDir
    ensures Open(fs, p) == Err(NotFound("Open", Normalize(p)))
    ensures Message(Open(fs, p).error) == "Open " + Normalize(p) + ": no such file or directory"
  {
  }

  /** Every failure of Open is NotFound("Open", path). */
  lemma OpenFailsOnlyAsNotFound(fs: FileSystem, p: string)
    ensures Open(fs, p).Err? <==> Normalize(p) in fs.assetDir || Normalize(p) !in fs.asset
    ensures Open(fs, p).Err? ==> Open(fs, p).error == NotFound("Open", Normalize(p))
  {
  }

  // ---------------------------------------------------------------------
  // Stat and Lstat

  /** Stat of a directory: a directory entry of size 0, mode ModeDir|0777, epoch mtime. */
  lemma StatDirectory(fs: FileSystem, p: string)
    requires Normalize(p) in fs.assetDir
    ensures Stat(fs, p).Ok?
    ensures Stat(fs, p).value.Name() == Base(Normalize(p))
    ensures Stat(fs, p).value.IsDir()
    ensures Stat(fs, p).value.Size() == 0
    ensures TypeBits(Stat(fs, p).value.Mode()) == ModeDir
    ensures Perm(Stat(fs, p).value.Mode()) == ModePerm
    ensures Stat(fs, p).value.ModTime() == Epoch
  {
  }

  /** Stat of a file: not a directory, the asset's size and mtime, mode 0444. */
  lemma StatFile(fs: FileSystem, p: string)
    requires WellFormed(fs) && Normalize(p) in fs.asset
    ensures Stat(fs, p).Ok?
    ensures Stat(fs, p).value.Name() == Base(Normalize(p))
    ensures !Stat(fs, p).value.IsDir()
    ensures Stat(fs, p).value.Size() == |fs.asset[Normalize(p)]|
    ensures Stat(fs, p).value.Mode() == ReadOnlyPerm
    ensures Stat(fs, p).value.ModTime() == fs.assetInfo[Normalize(p)].modTime
  {
    var q := Normalize(p);
    FileInfoAdapts(Base(q), fs.assetInfo[q]);
  }

  /** Stat of a path that is neither fails with "Stat <path>: ...". */
  lemma StatMissing(fs: FileSystem, p: string)
    requires Normalize(p) !in fs.assetDir && Normalize(p) !in fs.assetInfo
    ensures Stat(fs, p) == Err(NotFound("Stat", Normalize(p)))
    ensures Message(Stat(fs, p).error) == "Stat " + Normalize(p) + ": no such file or directory"
  {
  }

  /** Every failure of Stat is NotFound("Stat", path), and it fails only on a path that is neither. */
  lemma StatFailsOnlyAsNotFound(fs: FileSystem, p: string)
    ensures Stat(fs, p).Err? <==> Normalize(p) !in fs.assetDir && Normalize(p) !in fs.assetInfo
    ensures Stat(fs, p).Err? ==> Stat(fs, p).error == NotFound("Stat", Normalize(p))
  {
  }

  /** Lstat and Stat give the same result for every path, failures included. */
  lemma LstatIsStat(fs: FileSystem, p: string)
    ensures Lstat(fs, p) == Stat(fs, p)
    ensures Lstat(fs, p).Err? ==> Lstat(fs, p).error.op == "Stat"
  {
  }

  /**
    The entry Stat gives agrees, in the tests' sense, with a record of the
    asset on disk exactly when the record has the entry's base name, its
    kind, and (for a file) its size and mtime.
   */
  lemma StatAgreesWithDisk(fs: FileSystem, p: string, src: FileRecord)
    requires WellFormed(fs)
    requires Normalize(p) in fs.assetDir || Normalize(p) in fs.asset
    ensures Stat(fs, p).Ok?
    ensures Normalize(p) in fs.assetDir ==>
      (FileInfoEqual(src, Stat(fs, p).value) <==>
         src.name == Base(Normalize(p)) && IsDirMode(src.mode))
    ensures Normalize(p) in fs.asset ==>
      (FileInfoEqual(src, Stat(fs, p).value) <==>
         && src.name == Base(Normalize(p))
         && !IsDirMode(src.mode)
         && src.size == |fs.asset[Normalize(p)]|
         && src.modTime == fs.assetInfo[Normalize(p)].modTime)
  {
    var q := Normalize(p);
    if q in fs.asset {
      StatFile(fs, p);
    } else {
      StatDirectory(fs, p);
    }
  }

  // ---------------------------------------------------------------------
  // ReadDir

  /** ReadDir of a path that is not a directory (a file, or missing) fails. */
  lemma ReadDirNotDirectory(fs: FileSystem, p: string)
    requires Normalize(p) !in fs.assetDir
    ensures ReadDir(fs, p) == Err(NotFound("ReadDir", Normalize(p)))
    ensures Message(ReadDir(fs, p).error) == "ReadDir " + Normalize(p) + ": no such file or directory"
  {
  }

  /** In well-formed assets a child's entry is what Stat gives for the joined path. */
  lemma EntryIsStatOfChild(fs: FileSystem, dir: string, name: string)
    requires WellFormed(fs) && dir in fs.assetDir && name in fs.assetDir[dir]
    ensures Stat(fs, Join(dir, name)).Ok?
    ensures Entry(fs, dir, name) == Stat(fs, Join(dir, name))
    ensures Entry(fs, dir, name).value.Name() == name
    ensures Entry(fs, dir, name).value.IsDir() <==> Join(dir, name) in fs.assetDir
  {
    var full := Join(dir, name);
    assert !HasLeadingSlash(full) by {
      if dir == "" {
        assert full == name && name[0] != '/';
      } else {
        CleanPathShape(dir);
        assert full[0] == dir[0];
      }
    }
    assert Normalize(full) == full;
    BaseOfJoin(dir, name);
    if full !in fs.assetDir {
      assert TypeBits(fs.assetInfo[full].mode) == 0;
      FileInfoAdapts(name, fs.assetInfo[full]);
    }
  }

  /** The names of a listing, in order. */
  function Names(entries: seq<Info>): (names: seq<string>)
    ensures |names| == |entries|
    ensures forall i :: 0 <= i < |entries| ==> names[i] == entries[i].Name()
  {
    if entries == [] then [] else [entries[0].Name()] + Names(entries[1..])
  }

  /**
    ReadDir of a directory lists exactly its declared children, in order,
    each classified as a directory exactly when the joined path is one, and
    each equal to what Stat gives for the joined path.
   */
  lemma ReadDirListsChildren(fs: FileSystem, p: string)
    requires WellFormed(fs) && Normalize(p) in fs.assetDir
    ensures ReadDir(fs, p).Ok?
    ensures Names(ReadDir(fs, p).value) == fs.assetDir[Normalize(p)]
    ensures forall i :: 0 <= i < |ReadDir(fs, p).value| ==>
      var child := Join(Normalize(p), fs.assetDir[Normalize(p)][i]);
      && (ReadDir(fs, p).value[i].IsDir() <==> child in fs.assetDir)
      && Stat(fs, child) == Ok(ReadDir(fs, p).value[i])
  {
    var q := Normalize(p);
    var names := fs.assetDir[q];
    forall i | 0 <= i < |names| ensures Entry(fs, q, names[i]).Ok? {
      EntryIsStatOfChild(fs, q, names[i]);
    }
    var entries := ReadDir(fs, p).value;
    forall i | 0 <= i < |entries|
      ensures entries[i].Name() == names[i]
      ensures entries[i].IsDir() <==> Join(q, names[i]) in fs.assetDir
      ensures Stat(fs, Join(q, names[i])) == Ok(entries[i])
    {
      EntryIsStatOfChild(fs, q, names[i]);
    }
  }

  /** In well-formed assets ReadDir fails only for paths that are not directories. */
  lemma ReadDirFailsOnlyOnNonDirectory(fs: FileSystem, p: string)
    requires WellFormed(fs)
    ensures ReadDir(fs, p).Err? <==> Normalize(p) !in fs.assetDir
    ensures ReadDir(fs, p).Err? ==> ReadDir(fs, p).error == NotFound("ReadDir", Normalize(p))
  {
    if Normalize(p) in fs.assetDir {
      ReadDirListsChildren(fs, p);
    }
  }

  // ---------------------------------------------------------------------
  // The operations together

  /**
    In well-formed assets every path is exactly one of: a file (Open and
    Stat succeed, Stat says not a directory, ReadDir fails), a directory
    (Stat and ReadDir succeed, Stat says directory, Open fails) or missing
    (all fail).
   */
  lemma PathsAreFilesDirectoriesOrMissing(fs: FileSystem, p: string)
    requires WellFormed(fs)
    ensures Open(fs, p).Ok? <==> Stat(fs, p).Ok? && !Stat(fs, p).value.IsDir()
    ensures ReadDir(fs, p).Ok? <==> Stat(fs, p).Ok? && Stat(fs, p).value.IsDir()
    ensures !(Open(fs, p).Ok? && ReadDir(fs, p).Ok?)
    ensures Stat(fs, p).Err? ==> Open(fs, p).Err? && ReadDir(fs, p).Err?
  {
    var q := Normalize(p);
    ReadDirFailsOnlyOnNonDirectory(fs, p);
    if q in fs.asset {
      StatFile(fs, p);
    }
  }

  /** A filesystem made with nil lookups reports every path missing, under each operation's name. */
  lemma NilLookupsFindNothing(namespace: string, p: string)
    ensures String(New(namespace, None, None, None)) == namespace
    ensures Open(New(namespace, None, None, None), p) == Err(NotFound("Open", Normalize(p)))
    ensures Stat(New(namespace, None, None, None), p) == Err(NotFound("Stat", Normalize(p)))
    ensures Lstat(New(namespace, None, None, None), p) == Err(NotFound("Stat", Normalize(p)))
    ensures ReadDir(New(namespace, None, None, None), p) == Err(NotFound("ReadDir", Normalize(p)))
  {
  }

  /** String reports the namespace label given to New, whatever the lookups. */
  lemma StringIsNamespace(
    namespace: string,
    asset: Option<map<string, Bytes>>,
    assetDir: Option<map<string, seq<string>>>,
    assetInfo: Option<map<string, FileRecord>>)
    ensures String(New(namespace, asset, assetDir, assetInfo)) == namespace
  {
  }
}
