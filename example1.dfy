/**
  The asset set the filesystem is exercised with: three files at the root
  level and below `hello`, and the directories "" (the root) and "hello".
  The contents (hello.txt is given the text "Hello World"), the sizes that
  follow from them, the record modes and the mtimes are illustrative.
 */
module Example1 {

  import opened Wrappers
  import opened Os
  import opened Paths
  import opened FileInfo
  import opened BindataFs

  // The contents below are the ASCII bytes of the text in the comment above each.
  // "Hello World"
  const HelloTxt: Bytes := [0x48, 0x65, 0x6C, 0x6C, 0x6F, 0x20, 0x57, 0x6F, 0x72, 0x6C, 0x64]
  // "Hello Sub"
  const WorldTxt: Bytes := [0x48, 0x65, 0x6C, 0x6C, 0x6F, 0x20, 0x53, 0x75, 0x62]
  // "Hello Bar"
  const BarTxt: Bytes := [0x48, 0x65, 0x6C, 0x6C, 0x6F, 0x20, 0x42, 0x61, 0x72]
  // "Hello Index"
  const IndexHtml: Bytes := [0x48, 0x65, 0x6C, 0x6C, 0x6F, 0x20, 0x49, 0x6E, 0x64, 0x65, 0x78]

  /** Each record is named by its full asset path; the mode 0644 and the mtime are illustrative. */
  const RegularFile: FileMode := 0x1A4
  const BuiltAt: Int64 := 1483228800

  function Record(path: string, content: Bytes): FileRecord
    requires |content| < 0x8000_0000_0000_0000
  {
    FileRecord(path, |content|, RegularFile, BuiltAt)
  }

  // The asset paths. Every key of the tables below has a different length,
  // so telling them apart is cheap for the verifier.
  const HelloDir: string := "hello"
  const HelloPath: string := "hello.txt"
  const IndexPath: string := "index.html"
  const WorldPath: string := Join(HelloDir, "world.txt")
  const BarPath: string := Join(HelloDir, "bar.txt")

  /** The two nested paths are the ones the tests spell out. */
  lemma NestedPathsAreTheTestPaths()
    ensures WorldPath == "hello/world.txt"
    ensures BarPath == "hello/bar.txt"
  {
  }

  /** Asset */
  const AssetBytes: map<string, Bytes> := map[
    HelloPath := HelloTxt,
    WorldPath := WorldTxt,
    BarPath := BarTxt,
    IndexPath := IndexHtml]

  /** AssetDir */
  const AssetDirs: map<string, seq<string>> := map[
    "" := [HelloDir, HelloPath, IndexPath],
    HelloDir := ["bar.txt", "world.txt"]]

  /** AssetInfo */
  const AssetInfos: map<string, FileRecord> := map[
    HelloPath := Record(HelloPath, HelloTxt),
    WorldPath := Record(WorldPath, WorldTxt),
    BarPath := Record(BarPath, BarTxt),
    IndexPath := Record(IndexPath, IndexHtml)]

  /** New("assets://", example1.Asset, example1.AssetDir, example1.AssetInfo). */
  function Assets(): FileSystem {
    New("assets://", Some(AssetBytes), Some(AssetDirs), Some(AssetInfos))
  }

  lemma AssetsAreTheTables()
    ensures Assets() == FileSystem("assets://", AssetBytes, AssetDirs, AssetInfos)
  {
  }

  /** Every child the example declares is a simple name that exists. */
  lemma DeclaredChildExists(d: string, c: string)
    requires d in AssetDirs && c in AssetDirs[d]
    ensures SimpleName(c) && (Join(d, c) in AssetDirs || Join(d, c) in AssetInfos)
  {
    if d == "" {
      assert Join(d, c) == c;
    } else {
      assert c == "bar.txt" || c == "world.txt";
    }
  }

  /** Every asset has a record whose size is its byte count. */
  lemma SizesAreByteCounts()
    ensures forall f :: f in AssetBytes ==> f in AssetInfos && AssetInfos[f].size == |AssetBytes[f]|
  {
  }

  /** Every record is a regular file with an asset and a path without a leading slash. */
  lemma RecordsAreRegularFiles()
    ensures forall f :: f in AssetInfos ==>
      f in AssetBytes && !HasLeadingSlash(f) && TypeBits(AssetInfos[f].mode) == 0
  {
  }

  /** No path is both a file and a directory. */
  lemma FilesAreNotDirectories()
    ensures AssetBytes.Keys !! AssetDirs.Keys
  {
  }

  /** The directory keys are the root and the clean path "hello". */
  lemma DirectoriesAreClean()
    ensures forall d :: d in AssetDirs ==> d == "" || CleanPath(d)
  {
    SimpleNameIsClean(HelloDir);
  }

  lemma AssetsAreWellFormed()
    ensures WellFormed(Assets())
  {
    SizesAreByteCounts();
    RecordsAreRegularFiles();
    FilesAreNotDirectories();
    DirectoriesAreClean();
    forall d, c | d in AssetDirs && c in AssetDirs[d]
      ensures SimpleName(c) && (Join(d, c) in AssetDirs || Join(d, c) in AssetInfos)
    {
      DeclaredChildExists(d, c);
    }
    AssetsAreTheTables();
  }

  /** The Open rows: both files read back, the directory and the missing path fail. */
  lemma OpenRows()
    ensures Open(Assets(), "hello.txt") == Ok(HelloTxt)
    ensures Open(Assets(), WorldPath) == Ok(WorldTxt)
    ensures Open(Assets(), "/hello.txt") == Ok(HelloTxt)
    ensures Open(Assets(), "hello") == Err(NotFound("Open", "hello"))
    ensures Open(Assets(), "notfound") == Err(NotFound("Open", "notfound"))
  {
    AssetsAreTheTables();
    assert Normalize("/hello.txt") == "hello.txt";
  }

  /** What AssetDir and AssetInfo say about hello.txt. */
  lemma HelloTxtRecord()
    ensures HelloPath !in AssetDirs && HelloPath in AssetInfos
    ensures AssetInfos[HelloPath] == FileRecord(HelloPath, 11, RegularFile, BuiltAt)
  {
  }

  /** What AssetDir and AssetInfo say about hello/world.txt. */
  lemma WorldTxtRecord()
    ensures WorldPath !in AssetDirs && WorldPath in AssetInfos
    ensures AssetInfos[WorldPath] == FileRecord(WorldPath, 9, RegularFile, BuiltAt)
  {
  }

  /** Stat of hello.txt wraps its record under its base name. */
  lemma StatHelloTxtEntry()
    ensures Stat(Assets(), "hello.txt") == Ok(File("hello.txt", AssetInfos[HelloPath]))
  {
    AssetsAreTheTables();
    HelloTxtRecord();
    assert Normalize(HelloPath) == HelloPath;
    BaseOfJoin("", HelloPath);
  }

  /** Stat of hello/world.txt wraps its record under its base name. */
  lemma StatWorldTxtEntry()
    ensures Stat(Assets(), WorldPath) == Ok(File("world.txt", AssetInfos[WorldPath]))
  {
    AssetsAreTheTables();
    WorldTxtRecord();
    assert Normalize(WorldPath) == WorldPath;
    BaseOfJoin(HelloDir, "world.txt");
  }

  /** The Stat row of hello.txt: a read-only regular file of 11 bytes. */
  lemma StatHelloTxtRow()
    ensures Stat(Assets(), "hello.txt").Ok?
    ensures !Stat(Assets(), "hello.txt").value.IsDir()
    ensures Stat(Assets(), "hello.txt").value.Name() == "hello.txt"
    ensures Stat(Assets(), "hello.txt").value.Size() == 11
    ensures Stat(Assets(), "hello.txt").value.Mode() == ReadOnlyPerm
  {
    StatHelloTxtEntry();
    HelloTxtRecord();
    FileInfoAdapts("hello.txt", AssetInfos[HelloPath]);
  }

  /** The Stat row of hello/world.txt: named by its base name, not by the record's full path. */
  lemma StatWorldTxtRow()
    ensures Stat(Assets(), WorldPath).Ok?
    ensures !Stat(Assets(), WorldPath).value.IsDir()
    ensures Stat(Assets(), WorldPath).value.Name() == "world.txt"
    ensures Stat(Assets(), WorldPath).value.wrapped.name == WorldPath
  {
    StatWorldTxtEntry();
    WorldTxtRecord();
    FileInfoAdapts("world.txt", AssetInfos[WorldPath]);
  }

  /** The Stat row of the directory. */
  lemma StatDirectoryRow()
    ensures Stat(Assets(), "hello") == Ok(Dir("hello"))
  {
    AssetsAreTheTables();
    assert Normalize(HelloDir) == HelloDir;
    StatDirectory(Assets(), HelloDir);
    BaseOfJoin("", HelloDir);
  }

  /** The Stat row of the missing path. */
  lemma StatMissingRow()
    ensures Stat(Assets(), "notfound") == Err(NotFound("Stat", "notfound"))
  {
    AssetsAreTheTables();
    StatMissing(Assets(), "notfound");
  }

  /** ReadDir fails on both files and on the missing path. */
  lemma ReadDirFailingRows()
    ensures ReadDir(Assets(), "hello.txt") == Err(NotFound("ReadDir", "hello.txt"))
    ensures ReadDir(Assets(), WorldPath) == Err(NotFound("ReadDir", WorldPath))
    ensures ReadDir(Assets(), "notfound") == Err(NotFound("ReadDir", "notfound"))
  {
    AssetsAreTheTables();
  }

  /** The children of hello are files, not directories. */
  lemma HelloChildrenAreFiles()
    ensures AssetDirs[HelloDir] == ["bar.txt", "world.txt"]
    ensures forall c :: c in AssetDirs[HelloDir] ==> Join(HelloDir, c) !in AssetDirs
  {
    assert BarPath !in AssetDirs && WorldPath !in AssetDirs;
  }

  /** ReadDir("hello") lists its two files. */
  lemma ReadDirHelloRow()
    ensures ReadDir(Assets(), "hello").Ok?
    ensures Names(ReadDir(Assets(), "hello").value) == ["bar.txt", "world.txt"]
    ensures forall i :: 0 <= i < |ReadDir(Assets(), "hello").value| ==>
      !ReadDir(Assets(), "hello").value[i].IsDir()
  {
    var fs := Assets();
    AssetsAreWellFormed();
    AssetsAreTheTables();
    HelloChildrenAreFiles();
    assert Normalize(HelloDir) == HelloDir;
    ReadDirListsChildren(fs, HelloDir);
    var entries := ReadDir(fs, HelloDir).value;
    forall i | 0 <= i < |entries| ensures !entries[i].IsDir() {
      assert fs.assetDir[HelloDir][i] in AssetDirs[HelloDir];
    }
  }

  /** ReadDir("") lists the directory hello and the files hello.txt and index.html. */
  lemma ReadDirRootRow()
    ensures ReadDir(Assets(), "").Ok?
    ensures Names(ReadDir(Assets(), "").value) == ["hello", "hello.txt", "index.html"]
    ensures ReadDir(Assets(), "").value[0].IsDir()
    ensures !ReadDir(Assets(), "").value[1].IsDir() && !ReadDir(Assets(), "").value[2].IsDir()
  {
    AssetsAreWellFormed();
    AssetsAreTheTables();
    ReadDirListsChildren(Assets(), "");
  }

  /** String gives back the label passed to New. */
  lemma StringRow()
    ensures String(New("hello", None, None, None)) == "hello"
    ensures String(Assets()) == "assets://"
  {
  }
}
