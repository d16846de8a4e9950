# bindatafs in Dafny

A model of `github.com/go-serve/bindatafs`, which presents go-bindata assets
as a read-only `vfs.FileSystem`. go-bindata compiles files into a program and
generates three lookups: `Asset` (path to bytes), `AssetInfo` (path to an
`os.FileInfo` record) and `AssetDir` (directory path to child names; the root
is `""`). `bindatafs.New(name, Asset, AssetDir, AssetInfo)` wraps them and
answers `Open`, `Stat`, `Lstat`, `ReadDir` and `String`.

The model has two parts.

- The metadata adapters of `fileinfo.go`. `fileInfo` wraps a real record under
  another name. It keeps the record's type bits and makes it read-only (0444).
  `dirInfo` is a synthesised directory entry: size 0, mode `ModeDir|0777`, mtime
  at the Unix epoch.
- The filesystem, as its table-driven tests in `bindatafs_test.go` pin it down.
  The error text is `"<op> <path>: no such file or directory"`. Each operation
  separates files, directories and missing paths. The tests also fix what a
  `Stat` or `Lstat` entry must look like (`fileInfoEqual`). For `ReadDir` they
  check only the number of entries and their names. That an entry is a file or
  a directory is this model's choice, tied to `Stat` by `EntryIsStatOfChild`.

`bindatafs.go`, the Go file that implements the filesystem, is not part of this
model. The filesystem functions are written from what the tests demand of it.

Files and modules:

- `wrappers.dfy` (`Wrappers`): `Option`.
- `os.dfy` (`Os`): `FileMode` as `bv32` with Go's bits (`ModeDir = 1<<31`,
  `ModeType`, `ModePerm = 0777`). It also defines `Int64` and the `FileRecord`
  fields of an `os.FileInfo` (Name, Size, Mode, ModTime in Unix seconds).
- `paths.dfy` (`Paths`): Go's `path.Base`; `path.Join` of a directory and one
  child name; clean paths, which are simple names joined by single slashes.
- `fileinfo.dfy` (`FileInfo`): `Info = File(name, wrapped) | Dir(name)`, which
  are `fileInfo` and `dirInfo`, with the accessors `Name`, `Size`, `Mode`,
  `ModTime`, `IsDir` and `Sys`.
- `bindatafs.dfy` (`BindataFs`): the filesystem over three maps, the error text
  and its inverse, the tests' `fileInfoEqual` check, and the lemmas.
- `example1.dfy` (`Example1`): the asset set the tests use, with one lemma per
  group of test rows.

Octal constants are written in hex: 0444 is `0x124` and 0777 is `0x1FF`.

Behaviour fixed by the model:

- A path is normalised by removing one leading `/`. The normalised path is the
  one that appears in error messages.
- A path is a directory exactly when it is a key of `AssetDir`. `Open` refuses
  directories. `Stat` answers a directory with `dirInfo{Base(path)}` and a file
  with `fileInfo{Base(path), record}`. The root `""` is named `"."`, which is
  what `path.Base("")` returns.
- `Lstat` is `Stat`, and that includes its error. The Lstat loop of the tests
  (bindatafs_test.go:217-229) reuses the Stat rows and expects
  `"Stat notfound: ..."`. So an Lstat failure reports the operation as `Stat`,
  not `Lstat`.
- `ReadDir` of a directory lists one entry per declared child, in the declared
  order. The entry is `dirInfo{child}` when the joined path is a directory,
  otherwise `fileInfo{child, AssetInfo(joined)}`. A declared child without a
  record makes the whole call fail with `NotFound("ReadDir", joined path)`. This
  case never arises in tables that satisfy `WellFormed`.
- A nil lookup given to `New` is the empty map, so through it every path is
  missing.
- `WellFormed` states what this model assumes of the generated tables: go-bindata's
  default output, which keeps file metadata. No source file shown here
  establishes it. Directory keys are the root
  `""` or clean paths: simple names joined by single slashes. File keys have
  no leading `/`. Every declared child is a simple name that exists. Every asset has a
  regular-file record whose size is its byte count. No path is both a file and
  a directory.

## Model

| member | source | states |
|---|---|---|
| `FileInfo.Info.Mode` | fileinfo.go:29-31 | For `fileInfo`, the permission bits are exactly 0444, the type bits are the wrapped record's type bits, and no other bit is set. For `dirInfo` (fileinfo.go:65-67), the permissions are 0777 and the type is exactly `ModeDir`. |
| `FileInfo.Info.IsDir` | fileinfo.go:39-41 | A `fileInfo` is a directory exactly when its wrapped record's mode has `ModeDir`. A `dirInfo` always is (fileinfo.go:75-77). |
| `FileInfo.FileInfoAdapts` | fileinfo.go:18-46 | `fileInfo` returns its override name, not the record's. Size and mtime pass through unchanged. The mode is the record's type bits with 0444. `IsDir` matches the record, and is false for a regular record. `Sys` is nil. |
| `FileInfo.DirInfoSynthesises` | fileinfo.go:54-82 | `dirInfo` has size 0, mode `ModeDir\|0777`, permissions 0777, type `ModeDir`, epoch mtime and nil `Sys`, and is always a directory. |
| `Paths.Base` | bindatafs_test.go:27-30 | `path.Base` never gives the empty name. The empty path is named `"."`. The result is `"/"` or contains no slash. |
| `Paths.Join` | bindatafs_test.go:81-82 | Joining to the root `""` gives the child name itself. Otherwise the result is the directory, one `/`, then the child. |
| `Paths.JoinKeepsPathsClean` | bindatafs_test.go:285-301 | Joining a simple name to the root or to a clean path gives a clean path. So the nested directories of well-formed assets stay clean, and Go's `path.Join` would leave them unchanged. |
| `Paths.BaseOfJoin` | bindatafs_test.go:27-30 | Naming an entry by `path.Base` of a joined path gives back the child's own name, so `Name()` matches the on-disk file's name. |
| `BindataFs.Message` | bindatafs_test.go:22-24 | The text is the operation, one space, the path, then `": no such file or directory"`. Each part sits at its exact position. |
| `BindataFs.New` | example_bindatafs_test.go:23-28 | The label is kept. Each lookup given is used as is, and each nil lookup becomes the empty map. |
| `BindataFs.Normalize` | example/fs_test.go:41-47 | A path with a leading `/` (as `/hello.txt` reaches the filesystem from HTTP) is looked up without it. Any other path is looked up unchanged. |
| `BindataFs.Open` | bindatafs_test.go:76-93 | `Open` succeeds exactly when the normalised path is an asset and not a directory, and then yields that asset's bytes. Every failure is `NotFound("Open", path)`. |
| `BindataFs.Stat` | bindatafs_test.go:147-168 | `Stat` fails exactly when the normalised path is neither a directory nor a file, always as `NotFound("Stat", path)`. A result is named by the path's base name. It is a `dirInfo` exactly for a directory key, and otherwise wraps that path's AssetInfo record. |
| `BindataFs.Lstat` | bindatafs_test.go:217-229 | `Lstat` equals `Stat`. Its failures are `NotFound("Stat", path)`, which is the text the reused Stat rows expect. |
| `BindataFs.Entry` | bindatafs_test.go:335-342 | A child's entry is named by the child. It is a directory exactly when the joined path is a directory key, and otherwise wraps the joined path's record. It fails exactly when the joined path is neither, as `NotFound("ReadDir", joined)`. |
| `BindataFs.ReadDir` | bindatafs_test.go:275-306 | A path that is not a directory fails with `NotFound("ReadDir", path)`. A listing has one entry per declared child, each that child's entry, in the declared order. A failure on a directory is the error of one of its children. |
| `BindataFs.FileInfoMismatch` | bindatafs_test.go:26-67 | No difference is reported exactly when the name and the kind agree and the kind's fields pass. A directory needs size 0, type `ModeDir`, permissions 0777 and epoch mtime; a file needs the disk size, permissions 0444 and the disk mtime. A name difference is reported first, and a kind difference comes next. |
| `BindataFs.ParseMessage` | bindatafs_test.go:22-24 | Reads op and path back out of a not-found message. Whatever it returns regenerates exactly the text it was given. |
| `BindataFs.ParseMessageInvertsMessage` | bindatafs_test.go:22-24 | For an operation name without spaces, parsing `msgNotFound(op, path)` gives back `(op, path)`. |
| `BindataFs.MessageIsInjective` | bindatafs_test.go:22-24 | Two errors have the same message exactly when they are the same error. So the tests' string comparisons check op and path exactly. |
| `BindataFs.Entries` | bindatafs_test.go:322-342 | The listing has one entry per child, in order, each that child's entry. It fails exactly when some child has no entry, with the error of the first such child. |
| `BindataFs.OpenReadsAsset` | bindatafs_test.go:113-137 | `Open` of an asset path yields exactly that asset's bytes. |
| `BindataFs.OpenDirectoryFails` | bindatafs_test.go:84-88 | `Open` of a directory fails with `"Open <path>: no such file or directory"`. |
| `BindataFs.OpenFailsOnlyAsNotFound` | bindatafs_test.go:84-93 | `Open` fails exactly on directories and on paths with no asset. It always fails with `NotFound("Open", path)`. |
| `BindataFs.StatDirectory` | bindatafs_test.go:35-51 | `Stat` of a directory is a directory entry named by the path's base name. It has size 0, type `ModeDir`, permissions 0777 and epoch mtime. |
| `BindataFs.StatFile` | bindatafs_test.go:52-64 | `Stat` of a file is a non-directory entry named by the path's base name. Its size is the asset's byte count, its mode exactly 0444, and its mtime the record's. |
| `BindataFs.StatFailsOnlyAsNotFound` | bindatafs_test.go:164-168 | On every filesystem, `Stat` fails exactly on paths that are neither a directory nor a file. It always fails with `NotFound("Stat", path)`. |
| `BindataFs.StatMissing` | bindatafs_test.go:164-168 | `Stat` of a path that is neither a file nor a directory fails with `"Stat <path>: no such file or directory"`. |
| `BindataFs.LstatIsStat` | bindatafs_test.go:217-229 | `Lstat` equals `Stat` on every path. Its failures are reported under the operation name `Stat`. |
| `BindataFs.StatAgreesWithDisk` | bindatafs_test.go:26-67 | `fileInfoEqual(src, Stat(p))` holds exactly when `src` has the base name and kind of the entry, in both directions. For a file, `src` must also have the asset's size and mtime. |
| `BindataFs.ReadDirNotDirectory` | bindatafs_test.go:275-284 | `ReadDir` of a path that is not a directory, whether a file or missing, fails with `"ReadDir <path>: no such file or directory"`. |
| `BindataFs.EntryIsStatOfChild` | bindatafs_test.go:335-342 | In well-formed assets, a child's listing entry is named by the child. It equals what `Stat` gives for the joined path, and is a directory exactly when that path is one. |
| `BindataFs.ReadDirListsChildren` | bindatafs_test.go:322-342 | `ReadDir` of a directory succeeds. Its names are exactly the declared children: same count, same order, nothing extra. Each entry is classified as a directory exactly when the joined path is one, and equals `Stat` of that path. |
| `BindataFs.ReadDirFailsOnlyOnNonDirectory` | bindatafs_test.go:275-306 | In well-formed assets, `ReadDir` fails exactly on paths that are not directories. It always fails with `NotFound("ReadDir", path)`. |
| `BindataFs.PathsAreFilesDirectoriesOrMissing` | bindatafs_test.go:69-94 | In well-formed assets, `Open` succeeds exactly when `Stat` gives a non-directory. `ReadDir` succeeds exactly when `Stat` gives a directory. The two never both succeed, and a path `Stat` does not find fails under all three. |
| `BindataFs.NilLookupsFindNothing` | bindatafs_test.go:17-20 | `New(name, nil, nil, nil)` reports every path missing, under `Open`, `Stat` (also for `Lstat`) and `ReadDir`. `String` still gives the name. |
| `BindataFs.StringIsNamespace` | bindatafs_test.go:355-359 | `String()` returns the label given to `New`, whatever the lookups. |
| `Example1.AssetsAreWellFormed` | example_bindatafs_test.go:23-28 | The test asset set satisfies `WellFormed`. |
| `Example1.NestedPathsAreTheTestPaths` | bindatafs_test.go:81-82 | The nested asset paths are `hello/world.txt` and `hello/bar.txt`. |
| `Example1.OpenRows` | bindatafs_test.go:76-93 | `hello.txt` and `hello/world.txt` open to their bytes, and so does `/hello.txt`. `hello` fails with `NotFound("Open", "hello")`, and `notfound` with `NotFound("Open", "notfound")`. |
| `Example1.StatHelloTxtRow` | bindatafs_test.go:152-155 | `Stat("hello.txt")` is a non-directory named `hello.txt` with mode 0444, and its size is the 11 bytes of the table's content. |
| `Example1.StatWorldTxtRow` | bindatafs_test.go:156-159 | `Stat("hello/world.txt")` is a non-directory named `world.txt`, while the wrapped record carries the full path. |
| `Example1.StatDirectoryRow` | bindatafs_test.go:160-163 | `Stat("hello")` is `dirInfo{"hello"}`. |
| `Example1.StatMissingRow` | bindatafs_test.go:164-168 | `Stat("notfound")` fails with `NotFound("Stat", "notfound")`. |
| `Example1.ReadDirFailingRows` | bindatafs_test.go:275-306 | `ReadDir` of `hello.txt`, `hello/world.txt` and `notfound` fails with the `ReadDir` error for that path. |
| `Example1.ReadDirHelloRow` | bindatafs_test.go:285-292 | `ReadDir("hello")` lists exactly `bar.txt` and `world.txt`, both files. The test table labels both `"file"`, but the test checks only the count and the names. |
| `Example1.ReadDirRootRow` | bindatafs_test.go:293-301 | `ReadDir("")` lists exactly `hello` (a directory), `hello.txt` and `index.html` (files). The test table declares these `"dir"`/`"file"` labels, but the test checks only the count and the names. |
| `Example1.StringRow` | bindatafs_test.go:355-359 | `New("hello", nil, nil, nil).String()` is `"hello"`. |

## Left out

- HTTP serving through `http.FileServer` and `httpfs`, and the 301/404 status codes (example/fs_test.go, example_bindatafs_test.go): these are library plumbing around the filesystem.
- Union composition with `vfs.NameSpace.Bind` (example_bindatafs_union_test.go): the namespace library is not part of this model.
- Comparison against the real asset directory through `os.Open` and `vfs.OS`: this is disk I/O. `StatAgreesWithDisk` takes the disk record as a parameter instead.
- `RootType`: its test only logs and never fails.
- `Close` and `Seek` of the stream `Open` returns: `Open` yields the asset's bytes, which is all a full read observes.
- The go-bindata generated functions of `examples/example1`: `Example1` gives them as tables. All contents, the sizes that follow from them, the mtimes and the 0644 mode of the records are illustrative. The only evidence for the text of `hello.txt` is the output of the `Example` function, "Hello World", which is compared with surrounding whitespace trimmed.
- `Example1.StatHelloTxtRow`: its size of 11 bytes comes from the illustrative content. The test compares the size with the file on disk, never with a literal.
- `BindataFs.NilLookupsFindNothing`: bindatafs_test.go:17-20 only constructs `New("assets://", nil, nil, nil)` and calls no operation on it. In Go a call through a nil function value panics. That every path is reported missing is this model's reading of a nil lookup as the empty map, not something the source establishes.
- `fileinfo_test.go`: it only checks interface conformance.
- `time.Time`: mtimes are Unix seconds, the only thing the tests compare.
- The payload of `Sys()`: it is modelled only as absent.
- `BindataFs.StatFile`, `BindataFs.StatAgreesWithDisk` and the other lemmas that require `WellFormed`: they hold only for tables that satisfy it. In particular, a record's size must equal the asset's byte count. go-bindata's metadata-free mode writes size 0, which breaks this.
- `Paths.Join`: `path.Clean` is not modelled. `Join` agrees with Go's `path.Join` only for a simple child name and a root or clean directory. `WellFormed` requires both: declared children are `SimpleName`s, and directory keys are `""` or `CleanPath`s. `JoinKeepsPathsClean` shows that joining preserves this.
- `BindataFs.Normalize`: only one leading slash is removed.
- `Example1.OpenRows`: the expected errors are stated as `NotFound` values, not as literal strings. The tests build their strings with the same `msgNotFound` format, and `MessageIsInjective` shows the two readings agree.
- `os.ModeType` is Go's current mask (directory, symlink, named pipe, socket, device, char device, irregular). Older Go releases had fewer type bits. Only `ModeDir` matters to the tests.
