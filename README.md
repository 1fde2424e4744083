# FileUtils: a collision-avoiding file move, modelled in Dafny

This project models the Java class `aberta.files.FileUtils`, which moves a single file to a
destination file or directory. It creates the directories the destination needs. When the
chosen name is already taken, it picks the first free name `stem_1.ext` … `stem_100.ext`
instead of overwriting. It tries the move with `ATOMIC_MOVE` first and falls back to a plain
move when the file system cannot move atomically.

The file system is abstract. It is a map from each existing path to `File` or `Dir`. A path is
a sequence of non-empty name elements without `/`. The empty path stands for the working
directory: it always exists and is always a directory. The map is held in the class
`Store.FileStore`. Its two methods are the only points where state changes:
`CreateDirectories` models `Files.createDirectories` and `MoveEntry` models `Files.move`.
`WellFormed` is the invariant both methods keep: every entry sits inside an existing
directory.

Modules, leaves first:

- `Results` (results.dfy): `Option` stands for a Java null, and `Result` stands for a thrown exception.
- `Paths` (paths.dfy): `Segment` and `Path`. `ParsePath` parses a path string, `Render` is `Path.toString()`, and `GetPath` is `FileSystem.getPath(first, more...)`.
- `Names` (names.dfy): the stem/extension split by the regular expression `(\S+)\.(\S+)`, and the numbered names `stem_i[.ext]`.
- `Store` (store.dfy): the path→kind map, specification functions for `Files.createDirectories` and `Files.move`, and the class `FileStore`.
- `FileUtils` (fileutils.dfy): the destination classifier, `createPath` (its loop is the method `CreatePath`, specified by `CreatePathSpec`), `move` (`Move`, specified by `MoveSpec`), `moveFile`, the segment loop (`CollectSegments`) and `moveDirectoryFile`.
- `MoveProperties` (properties.dfy): lemmas about the specification functions.

Each method that changes state is proved equal to a specification function of the old
state: `Move` to `MoveSpec`, `MoveFile` to `MoveFileSpec`. The lemmas then state what those
functions guarantee. `MoveSpec` takes no "atomic move supported" input. So the final state
and the result are the same whether the atomic attempt succeeds or the fallback runs.

Where the design notes and the code differ, the model follows the code:

- The name is split at the last dot that has at least one character on each side, not at the first dot. The name must also contain no whitespace. So `a.b.` gives (`a`, `b.`), while `.gitignore`, `a.` and `x y.txt` have no extension. A name such as `my report.pdf` is therefore renamed `my report.pdf_1`.
- An existing plain file at the destination is classified as a directory. Even so, `moveFile` then acts exactly as a move to that file name: the file is put beside it under a numbered name (`MoveFileOntoExistingFile`).
- With `destinationIsDirectory` false, the directory to check is the destination's parent. When that parent exists as a plain file, nothing is created, and the move fails with "Cannot move file" (`CannotMove`), leaving the file system unchanged (`MoveUnderPlainFileFails`).
- With `destinationIsDirectory` true, the directory to check is the destination itself. When it exists as a plain file, nothing is created either. `createPath` then takes its parent and its own name, so the file is placed beside it under a numbered name. The flag makes no difference in that case (`MoveToExistingFileIgnoresFlag`).
- A non-directory component on the way to a directory that must be created gives "failed to create directories for …" (`CreateDirectoriesFailed`). The JDK reports that case as a plain I/O error, never as `FileAlreadyExistsException` (`MoveBlockedDirectoryFails`, `CreateDirectoriesFailsOnlyWhenBlocked`). The JDK rethrows `FileAlreadyExistsException` only when the directory to check itself exists and is not a directory. Because `move` has just found that path absent, that takes either a race (the entry appears between the check and the creation) or a dangling symbolic link (`Files.exists` follows the link, the creation does not). Neither is modelled, so the "already exists and is not a directory" branch is unreachable here.

## Model

| member | source | states |
|---|---|---|
| `Names.SplitName` | src/main/java/aberta/files/FileUtils.java:294-300 | the stem/extension split: a whitespace-free name is cut at its last dot that has a character on each side; any other name is all stem with no extension |
| `Names.SplitNameIsGreedyMatch` | src/main/java/aberta/files/FileUtils.java:294-300 | an extension is found iff `(\S+)\.(\S+)` matches the whole name; the stem is then the longest first group the pattern allows, and stem/extension are the text before/after that dot |
| `Names.SplitNameRoundTrip` | src/main/java/aberta/files/FileUtils.java:294-300 | with an extension, stem + "." + extension is the name again and both parts are non-empty and free of whitespace; without one the stem is the whole name |
| `Names.SplitNameNoExtension` | src/main/java/aberta/files/FileUtils.java:294-300 | a name with whitespace, with no dot, or whose only dots are its first or last character has no extension and keeps its whole name as stem |
| `Names.ExtensionDots` | src/main/java/aberta/files/FileUtils.java:294-297 | an extension holds a dot at most as its last character |
| `Names.NumberedName` | src/main/java/aberta/files/FileUtils.java:328-331 | the candidate name stem + "_" + i, followed by "." + extension when there is one |
| `Names.NumberedNameIsSegment` | src/main/java/aberta/files/FileUtils.java:328-331 | a numbered name built from a name element is again a name element: non-empty and free of "/" |
| `Names.NumberedNameKeepsExtension` | src/main/java/aberta/files/FileUtils.java:328-331 | splitting `stem_i.ext` gives back the stem `stem_i` and the same extension |
| `Names.NumberedNameIsLonger` | src/main/java/aberta/files/FileUtils.java:328-331 | a numbered name is longer than the name it came from, so it never equals it |
| `Paths.ParseRender` | src/main/java/aberta/files/FileUtils.java:128 | parsing the string of a resulting path gives that path back |
| `Paths.GetPathComponents` | src/main/java/aberta/files/FileUtils.java:114-122 | joining the destination segments and parsing the result equals parsing each segment and concatenating the name elements |
| `Store.DirOfIsParent` | src/main/java/aberta/files/FileUtils.java:221 | the parent used by the store agrees with Path.getParent() wherever that is not null, and is the working directory where it is null |
| `Store.WithDirs` | src/main/java/aberta/files/FileUtils.java:230 | the entries after createDirectories: the old ones, plus every missing prefix of the directory added as a directory |
| `Store.FileStore.CreateDirectories` | src/main/java/aberta/files/FileUtils.java:223-238 | creation succeeds iff no component of the directory exists as a file; on success the new state adds exactly the missing components as directories, on failure nothing changes |
| `Store.WithDirsEffect` | src/main/java/aberta/files/FileUtils.java:230 | after createDirectories the directory exists, every old entry is kept, only directories along it are added, and the file system stays well-formed |
| `Store.MoveEntrySpec` | src/main/java/aberta/files/FileUtils.java:247-270 | Files.move of a file: NoSuchFile for a missing source, nothing for a move onto itself, FileAlreadyExists without REPLACE_EXISTING, DirectoryNotEmpty for a non-empty directory target, NoSuchFile when the target's directory is missing; otherwise the source is removed and the target becomes a file |
| `Store.FileStore.MoveEntry` | src/main/java/aberta/files/FileUtils.java:247-270 | an attempt with ATOMIC_MOVE on a file system that cannot do it throws AtomicMoveNotSupported and changes nothing; otherwise the state becomes that of Files.move honouring the replace option |
| `Store.MoveEntryEffect` | src/main/java/aberta/files/FileUtils.java:249-268 | a successful Files.move leaves the target an existing file, removes the source unless it is the target, changes no other entry and keeps the file system well-formed |
| `FileUtils.LooksLikeADirectory` | src/main/java/aberta/files/FileUtils.java:339-351 | a path is classified as a directory iff it exists (whether file or directory) or its last name element holds no dot |
| `FileUtils.IsBlank` | src/main/java/aberta/files/FileUtils.java:90 | String.trim().isEmpty(): every character is at most a space |
| `FileUtils.EndsWithSeparator` | src/main/java/aberta/files/FileUtils.java:126 | the raw last destination segment ends with "/" |
| `FileUtils.CreatePathSpec` | src/main/java/aberta/files/FileUtils.java:284-337 | createPath: the name kept and the target directory, then dir + name when that is the source, replacing is allowed or it is free; otherwise the first free stem_k[.ext] for k in 1..100, or the duplicate-limit error |
| `FileUtils.CreatePath` | src/main/java/aberta/files/FileUtils.java:284-337 | the counter loop returns exactly the path, or the duplicate-limit failure, that the suffix search `CreatePathSpec` defines on the current file system, and it changes nothing |
| `FileUtils.MoveSpec` | src/main/java/aberta/files/FileUtils.java:195-282 | move: the argument checks in the source's order, then createDirectories for a missing dirToCheck, then createPath, then Files.move honouring the replace option; no input for atomic support |
| `FileUtils.Move` | src/main/java/aberta/files/FileUtils.java:195-282 | the result and the new file system are those of `MoveSpec` whether or not atomic moves are supported, and the file system stays well-formed |
| `FileUtils.MoveFileSpec` | src/main/java/aberta/files/FileUtils.java:83-137 | moveFile: blank-source, no-segments and null-segment errors, the joined destination, the directory classification, then move with replacing disallowed and the result as a string |
| `FileUtils.MoveFile` | src/main/java/aberta/files/FileUtils.java:83-137 | validation, segment join, classification (also treating a raw last segment that ends in "/" as a directory) and move with replacing disallowed, as `MoveFileSpec` defines |
| `FileUtils.CollectSegments` | src/main/java/aberta/files/FileUtils.java:98-105 | the list is produced iff no segment is null, and it then holds every segment's string in order |
| `FileUtils.JavaString` | src/main/java/aberta/files/FileUtils.java:174 | string concatenation turns a null part into "null" |
| `FileUtils.MoveDirectoryFile` | src/main/java/aberta/files/FileUtils.java:167-176 | the same outcome as moveFile with sourceDir + "/" + sourceFile as the source |
| `MoveProperties.FirstFreeIsLeast` | src/main/java/aberta/files/FileUtils.java:320-334 | the suffix search yields the least suffix whose candidate is free and finds none iff every candidate up to 100 exists |
| `MoveProperties.CreatePathKeepsName` | src/main/java/aberta/files/FileUtils.java:287-313 | createPath returns dir.resolve(fileName) unchanged iff that path is the source, replacing is allowed, or the path does not exist; dir is the destination when it is a directory, otherwise its parent or "" |
| `MoveProperties.CreatePathPicksLeastFree` | src/main/java/aberta/files/FileUtils.java:320-334 | otherwise the result is stem_k[.ext] in the same directory for the least free k in 1..100, all earlier candidates existing; the renamed file keeps stem and extension |
| `MoveProperties.CreatePathLimit` | src/main/java/aberta/files/FileUtils.java:322-326 | createPath throws "limit of duplicate file names reached" iff the name and all of stem_1 … stem_100 exist and neither a self-move nor replacing applies |
| `MoveProperties.CreatePathTargetFree` | src/main/java/aberta/files/FileUtils.java:302-336 | the returned path lies in the target directory and does not exist unless it is the source or replacing is allowed; the only failure is the duplicate limit |
| `MoveProperties.FreshDirectoryAccepts` | src/main/java/aberta/files/FileUtils.java:220-253 | when dirToCheck has to be created, the target inside it is free and the move into it succeeds |
| `MoveProperties.MoveFailureKeepsEntries` | src/main/java/aberta/files/FileUtils.java:204-281 | every failure of move (null, directory or missing source, null destination, blocked directory, duplicate limit, failed move) leaves the file system unchanged |
| `MoveProperties.MoveBlockedDirectoryFails` | src/main/java/aberta/files/FileUtils.java:220-238 | when dirToCheck must be created and one of its components is a plain file, move throws "failed to create directories for" dirToCheck and changes nothing |
| `MoveProperties.CreateDirectoriesFailsOnlyWhenBlocked` | src/main/java/aberta/files/FileUtils.java:220-238 | that exception arises only then: the arguments passed the checks, dirToCheck had to be created, a component of it is a plain file, and the message names dirToCheck |
| `MoveProperties.MoveUnderPlainFileFails` | src/main/java/aberta/files/FileUtils.java:220-281 | with destinationIsDirectory false and the destination's parent a plain file, nothing is created and move throws "Cannot move file", changing nothing |
| `MoveProperties.MoveToExistingFileIgnoresFlag` | src/main/java/aberta/files/FileUtils.java:220-223 | for a destination that exists as a plain file, move gives the same outcome whichever value destinationIsDirectory has |
| `MoveProperties.MoveSuccessPlacesFile` | src/main/java/aberta/files/FileUtils.java:220-276 | after a successful move the file exists at the returned path, the source is gone, other entries are unchanged and the only new entries besides the target are directories along dirToCheck |
| `MoveProperties.MoveNeverOverwrites` | src/main/java/aberta/files/FileUtils.java:243-269 | without allowReplaceExisting the target did not exist (or is the source) and every other pre-existing entry is unchanged, whichever move attempt ran |
| `MoveProperties.MoveOntoItself` | src/main/java/aberta/files/FileUtils.java:307-311 | moving a file to the path it already occupies returns that path and changes nothing, without needing allowReplaceExisting |
| `MoveProperties.MoveReplacesFile` | src/main/java/aberta/files/FileUtils.java:248-251 | with allowReplaceExisting an existing file at the destination is replaced, with no numeric suffix |
| `MoveProperties.OrderCsvIsRenamed` | src/main/java/aberta/files/FileUtils.java:181-185 | with order.csv present in the destination directory, the moved order.csv arrives as order_1.csv |
| `MoveProperties.MoveIntoNewDirectory` | src/main/java/aberta/files/FileUtils.java:220-244 | moving into a missing destination directory creates it and its ancestors and places the file there under the source's name |
| `MoveProperties.MoveFileRejectsBadArguments` | src/main/java/aberta/files/FileUtils.java:90-105 | moveFile fails, changing nothing, for a null or blank source, then for no segments, then for a null segment |
| `MoveProperties.MoveFileIntoNewDirectory` | src/main/java/aberta/files/FileUtils.java:124-128 | a missing destination whose last element holds no dot, or whose raw last segment ends in "/", becomes a new directory holding the file under the source's own name |
| `MoveProperties.MoveFileOntoExistingFile` | src/main/java/aberta/files/FileUtils.java:124-128 | an existing plain file as destination is classified as a directory, yet moveFile acts exactly as move to that file name: the file is renamed beside it |
| `MoveProperties.MoveDirectoryFileHasSource` | src/main/java/aberta/files/FileUtils.java:174-175 | moveDirectoryFile never fails for a missing source path, because the joined string always holds "/" (a null part renders as "null") |

## Left out

- Logging: every `Logger` call, since it only adds observability and changes no behaviour.
- `main`, the command-line entry point: argument glue plus `System.exit`.
- `InvalidPathException` and platform path syntax. Strings are parsed by splitting at `/`, and empty name elements are dropped.
- Absolute paths. A leading `/` is dropped, so `/a/b` and `a/b` name the same entry. `.` and `..` are ordinary names.
- Behaviour of the real file system beyond the abstract map: permissions, symbolic links, moves across volumes, real atomicity, and I/O failures that the map cannot explain. Only the choice between the atomic attempt and the fallback is modelled.
- `Store.FileStore.MoveEntry`: both attempts honour the requested replace option. For `ATOMIC_MOVE`, the JDK leaves replacement to the implementation. The model never moves a directory: a missing or directory source is reported as `NoSuchFile`, a case that `move` rules out before the call.
- Concurrency and symbolic links. The race between the existence scan and the move is out of scope. So is the `FileAlreadyExistsException` branch of `move`, which only such a race or a dangling link can reach.
- `Object.toString()` on segments. Segments are taken as strings, and a null segment is `None`.
- `FileUtils.LooksLikeADirectory`: omits `p.endsWith(File.separator)`. `Path.endsWith(String)` compares whole name elements, so the test never holds for a relative path that does not exist. The raw string test in `moveFile` is modelled instead.
- `FileUtils.HasExtension`: `.*\..*` is modelled as "contains a dot"; the pattern's handling of line terminators is ignored.
- `FileUtils.CreatePath`: requires a non-empty source path. Its only caller, `move`, has already rejected the empty path because it is a directory.
- The unused local `sourceFile` in `move`.
