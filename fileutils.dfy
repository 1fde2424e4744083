/** The class FileUtils: moving one file to a destination file or directory, creating the
    directories it needs and inventing a numbered name instead of overwriting an existing
    entry. Its static methods act on the default file system, which is passed explicitly
    here as a FileStore. */
module FileUtils {
  import opened Results
  import opened Paths
  import opened Names
  import opened Store

  /** The RuntimeExceptions the class throws, one alternative per message. */
  datatype MoveError =
    | NoSourcePath                               // "no source path specified"
    | NoDestinationPath                          // "no destination path specified"
    | NullSegment                                // "destination path contains a null"
    | SourceIsDirectory(source: Path)            // "source '...' is a directory"
    | SourceMissing(source: Path)                // "source file '...' does not exist"
    | CreateDirectoriesFailed(dir: Path)         // "failed to create directories for ..."
    | DuplicateLimitReached                      // "limit of duplicate file names reached"
    | CannotMove(source: Path, destination: Path)  // "Cannot move file ... to ..."

  /** What a call returns or throws, together with the file system it leaves behind. */
  datatype Outcome<T> = Outcome(result: Result<T, MoveError>, entries: Entries)

  /** The highest numeric suffix createPath tries. */
  const MaxDuplicates: nat := 100

  // ---------------------------------------------------------------------------------------
  // Destination classifier

  /** The pattern .*\..* matched against a name: it holds a dot somewhere. */
  predicate HasExtension(name: string)
  {
    exists i | 0 <= i < |name| :: name[i] == '.'
  }

  /** isOrlooksLikeADirectory: an existing entry of either kind, or a path whose last name
      element holds no dot. (The further test p.endsWith("/") in the Java method compares
      whole name elements and never holds for a path that does not exist, so it is left out.) */
  function LooksLikeADirectory(m: Entries, p: Path): (r: bool)
    ensures r <==> Exists(m, p) || '.' !in FileName(p)
  {
    if IsDirectory(m, p) then true
    else if Exists(m, p) then true
    else !HasExtension(FileName(p))
  }

  /** last.endsWith(File.separator) on the raw, unparsed last destination segment. */
  predicate EndsWithSeparator(s: string)
  {
    |s| > 0 && s[|s| - 1] == Separator
  }

  /** String.trim().isEmpty(): trim removes every character up to and including the space. */
  predicate IsBlank(s: string)
  {
    forall i | 0 <= i < |s| :: s[i] <= ' '
  }

  // ---------------------------------------------------------------------------------------
  // Collision-avoiding path generator (createPath)

  /** The name to keep: the source's own name when the destination is a directory,
      otherwise the destination's last name element. */
  function BaseName(m: Entries, from: Path, to: Path): Segment
    requires from != []
  {
    if IsDirectory(m, to) then FileName(from) else FileName(to)
  }

  /** The directory to move into: the destination if it is a directory, otherwise its
      parent, or the empty path when it has none. */
  function TargetDir(m: Entries, to: Path): Path
  {
    if IsDirectory(m, to) then to
    else match Parent(to)
      case Some(dir) => dir
      case None => []
  }

  /** The name tried at the i-th collision. */
  function Candidate(name: Segment, i: nat): Segment
  {
    var sp := SplitName(name);
    NumberedNameIsSegment(name, i);
    NumberedName(sp.stem, sp.extension, i)
  }

  /** The least suffix in i..MaxDuplicates whose candidate does not exist in dir. */
  function FirstFree(m: Entries, dir: Path, name: Segment, i: nat): Option<nat>
    requires 1 <= i
    decreases MaxDuplicates + 1 - i
  {
    if i > MaxDuplicates then None
    else if !Exists(m, dir + [Candidate(name, i)]) then Some(i)
    else FirstFree(m, dir, name, i + 1)
  }

  /** The path createPath(from, to, allowReplaceExisting) returns, or the exception it throws,
      on the file system m. */
  function CreatePathSpec(m: Entries, from: Path, to: Path, allowReplaceExisting: bool)
    : Result<Path, MoveError>
    requires from != []
  {
    var name := BaseName(m, from, to);
    var dir := TargetDir(m, to);
    var newPath := dir + [name];
    if from == newPath || allowReplaceExisting || !Exists(m, newPath) then Ok(newPath)
    else match FirstFree(m, dir, name, 1)
      case None => Err(DuplicateLimitReached)
      case Some(k) => Ok(dir + [Candidate(name, k)])
  }

  /** createPath: the target path for the move. It reads the file system and changes nothing;
      from is never the empty path because move rejects a directory source first. */
  method CreatePath(fs: FileStore, from: Path, to: Path, allowReplaceExisting: bool)
    returns (r: Result<Path, MoveError>)
    requires from != []
    ensures r == CreatePathSpec(fs.entries, from, to, allowReplaceExisting)
  {
    var toIsDirectory := IsDirectory(fs.entries, to);
    var fileName: Segment := if toIsDirectory then FileName(from) else FileName(to);
    ghost var name := fileName;
    var split := SplitName(fileName);
    var file, extension := split.stem, split.extension;
    var dir: Path;
    if toIsDirectory {
      dir := to;
    } else {
      var parent := Parent(to);
      dir := if parent.Some? then parent.value else [];
    }
    var newPath := dir + [fileName];
    if from == newPath || allowReplaceExisting {
      return Ok(newPath);
    }
    if Exists(fs.entries, newPath) {
      var i := 1;
      while Exists(fs.entries, newPath)
        invariant 1 <= i <= MaxDuplicates + 1
        invariant i == 1 ==> newPath == dir + [name] && Exists(fs.entries, newPath)
        invariant i > 1 ==> newPath == dir + [Candidate(name, i - 1)]
        invariant i > 1 ==> FirstFree(fs.entries, dir, name, 1) == FirstFree(fs.entries, dir, name, i - 1)
        decreases MaxDuplicates + 1 - i
      {
        if i > MaxDuplicates {
          return Err(DuplicateLimitReached);
        }
        var numbered := file + "_" + DecimalString(i);
        if extension.Some? {
          numbered := numbered + "." + extension.value;
        }
        assert numbered == Candidate(name, i);
        fileName := numbered;
        i := i + 1;
        newPath := dir + [fileName];
      }
    }
    return Ok(newPath);
  }

  // ---------------------------------------------------------------------------------------
  // Move executor

  /** The directory move makes sure of: the destination itself when it is to be a directory,
      otherwise its parent (null when it has none). */
  function DirToCheck(destination: Path, destinationIsDirectory: bool): Option<Path>
  {
    if destinationIsDirectory then Some(destination) else Parent(destination)
  }

  /** move creates dirToCheck only when it is given and does not exist yet. */
  predicate MustCreate(m: Entries, dirToCheck: Option<Path>)
  {
    dirToCheck.Some? && !Exists(m, dirToCheck.value)
  }

  /** The file system once the directories have been made sure of. */
  function Prepared(m: Entries, dirToCheck: Option<Path>): Entries
  {
    if MustCreate(m, dirToCheck) then WithDirs(m, dirToCheck.value) else m
  }

  /** What move(source, destination, destinationIsDirectory, allowReplaceExisting) returns or
      throws, and the file system it leaves: the checks in the source's order, then the
      directories, then the target from createPath, then Files.move honouring the replace
      option. Whether the file system supports atomic moves does not enter: the fallback
      attempt has the same effect as the atomic one. */
  function MoveSpec(m: Entries, source: Option<Path>, destination: Option<Path>,
                    destinationIsDirectory: bool, allowReplaceExisting: bool): Outcome<Path>
  {
    if source.None? then Outcome(Err(NoSourcePath), m)
    else if IsDirectory(m, source.value) then Outcome(Err(SourceIsDirectory(source.value)), m)
    else if !Exists(m, source.value) then Outcome(Err(SourceMissing(source.value)), m)
    else if destination.None? then Outcome(Err(NoDestinationPath), m)
    else
      var src, dst := source.value, destination.value;
      var dirToCheck := DirToCheck(dst, destinationIsDirectory);
      if MustCreate(m, dirToCheck) && Blocked(m, dirToCheck.value) then
        Outcome(Err(CreateDirectoriesFailed(dirToCheck.value)), m)
      else
        var m1 := Prepared(m, dirToCheck);
        match CreatePathSpec(m1, src, dst, allowReplaceExisting)
        case Err(e) => Outcome(Err(e), m1)
        case Ok(toPath) =>
          match MoveEntrySpec(m1, src, toPath, allowReplaceExisting)
          case Err(_) => Outcome(Err(CannotMove(src, dst)), m1)
          case Ok(m2) => Outcome(Ok(toPath), m2)
  }

  /** move: validates the arguments, creates the directories, picks the target with
      createPath and moves the file, first with ATOMIC_MOVE and, if the file system does not
      support that, once more without it, with the same replace option both times. */
  method Move(fs: FileStore, source: Option<Path>, destination: Option<Path>,
              destinationIsDirectory: bool, allowReplaceExisting: bool, atomicMoveSupported: bool)
    returns (r: Result<Path, MoveError>)
    requires fs.Valid()
    modifies fs
    ensures fs.Valid()
    ensures Outcome(r, fs.entries)
      == MoveSpec(old(fs.entries), source, destination, destinationIsDirectory, allowReplaceExisting)
  {
    if source.None? {
      return Err(NoSourcePath);
    }
    var src := source.value;
    if IsDirectory(fs.entries, src) {
      return Err(SourceIsDirectory(src));
    }
    if !Exists(fs.entries, src) {
      return Err(SourceMissing(src));
    }
    if destination.None? {
      return Err(NoDestinationPath);
    }
    var dst := destination.value;
    var dirToCheck := if destinationIsDirectory then Some(dst) else Parent(dst);
    if dirToCheck.Some? && !Exists(fs.entries, dirToCheck.value) {
      var created := fs.CreateDirectories(dirToCheck.value);
      if !created {
        return Err(CreateDirectoriesFailed(dirToCheck.value));
      }
    }
    var toPath := CreatePath(fs, src, dst, allowReplaceExisting);
    if toPath.Err? {
      return Err(toPath.error);
    }
    var moved := fs.MoveEntry(src, toPath.value, allowReplaceExisting, true, atomicMoveSupported);
    if moved == Err(AtomicMoveNotSupported) {
      moved := fs.MoveEntry(src, toPath.value, allowReplaceExisting, false, atomicMoveSupported);
    }
    if moved.Err? {
      return Err(CannotMove(src, dst));
    }
    return Ok(moved.value);
  }

  // ---------------------------------------------------------------------------------------
  // moveFile and moveDirectoryFile

  predicate AllPresent(segments: seq<Option<string>>)
  {
    forall i | 0 <= i < |segments| :: segments[i].Some?
  }

  function Values(segments: seq<Option<string>>): (r: seq<string>)
    requires AllPresent(segments)
    ensures |r| == |segments| && forall i | 0 <= i < |r| :: segments[i] == Some(r[i])
  {
    seq(|segments|, i requires 0 <= i < |segments| => segments[i].value)
  }

  /** The destination moveFile builds: getPath(first, rest...) when there is more than one
      segment, getPath(first) otherwise. */
  function Destination(segments: seq<string>): Path
    requires segments != []
  {
    if |segments| > 1 then GetPath(segments[0], segments[1..]) else GetPath(segments[0], [])
  }

  /** What moveFile(sourceFilePath, toPathSegments...) returns or throws, and the file system
      it leaves. */
  function MoveFileSpec(m: Entries, sourceFilePath: Option<string>,
                        toPathSegments: seq<Option<string>>): Outcome<string>
  {
    if sourceFilePath.None? || IsBlank(sourceFilePath.value) then Outcome(Err(NoSourcePath), m)
    else if |toPathSegments| == 0 then Outcome(Err(NoDestinationPath), m)
    else if !AllPresent(toPathSegments) then Outcome(Err(NullSegment), m)
    else
      var segments := Values(toPathSegments);
      var destination := Destination(segments);
      var isDir := LooksLikeADirectory(m, destination) || EndsWithSeparator(segments[|segments| - 1]);
      Rendered(MoveSpec(m, Some(ParsePath(sourceFilePath.value)), Some(destination), isDir, false))
  }

  /** The outcome of move with the resulting path turned into a string (Path.toString()). */
  function Rendered(o: Outcome<Path>): Outcome<string>
  {
    match o.result
    case Ok(p) => Outcome(Ok(Render(p)), o.entries)
    case Err(e) => Outcome(Err(e), o.entries)
  }

  /** The loop of moveFile that copies the destination segments into a list, stopping at the
      first null. */
  method CollectSegments(toPathSegments: seq<Option<string>>) returns (r: Option<seq<string>>)
    ensures r.Some? <==> forall i | 0 <= i < |toPathSegments| :: toPathSegments[i].Some?
    ensures r.Some? ==>
      && |r.value| == |toPathSegments|
      && forall i | 0 <= i < |toPathSegments| :: toPathSegments[i] == Some(r.value[i])
  {
    var segments: seq<string> := [];
    var i := 0;
    while i < |toPathSegments|
      invariant 0 <= i <= |toPathSegments|
      invariant |segments| == i
      invariant forall j | 0 <= j < i :: toPathSegments[j] == Some(segments[j])
    {
      var segment := toPathSegments[i];
      if segment.None? {
        return None;
      }
      segments := segments + [segment.value];
      i := i + 1;
    }
    return Some(segments);
  }

  /** moveFile: validates the source string and the destination segments, joins the
      segments, classifies the destination and moves with replacing disallowed; the result
      is the final path as a string. */
  method MoveFile(fs: FileStore, sourceFilePath: Option<string>,
                  toPathSegments: seq<Option<string>>, atomicMoveSupported: bool)
    returns (r: Result<string, MoveError>)
    requires fs.Valid()
    modifies fs
    ensures fs.Valid()
    ensures Outcome(r, fs.entries) == MoveFileSpec(old(fs.entries), sourceFilePath, toPathSegments)
  {
    if sourceFilePath.None? || IsBlank(sourceFilePath.value) {
      return Err(NoSourcePath);
    }
    if |toPathSegments| == 0 {
      return Err(NoDestinationPath);
    }
    var collected := CollectSegments(toPathSegments);
    if collected.None? {
      return Err(NullSegment);
    }
    var segments := collected.value;
    assert segments == Values(toPathSegments);
    var source := ParsePath(sourceFilePath.value);
    var first, last := segments[0], segments[|segments| - 1];
    var destination := if |segments| > 1 then GetPath(first, segments[1..]) else GetPath(first, []);
    var isDir := LooksLikeADirectory(fs.entries, destination);
    if !isDir {
      isDir := EndsWithSeparator(last);
    }
    var moved := Move(fs, Some(source), Some(destination), isDir, false, atomicMoveSupported);
    if moved.Err? {
      return Err(moved.error);
    }
    return Ok(Render(moved.value));
  }

  /** Java string concatenation renders a null reference as "null". */
  function JavaString(s: Option<string>): string
  {
    if s.None? then "null" else s.value
  }

  /** moveDirectoryFile: moveFile with sourceDir + "/" + sourceFile as the source. */
  method MoveDirectoryFile(fs: FileStore, sourceDir: Option<string>, sourceFile: Option<string>,
                           destinationPath: seq<Option<string>>, atomicMoveSupported: bool)
    returns (r: Result<string, MoveError>)
    requires fs.Valid()
    modifies fs
    ensures fs.Valid()
    ensures Outcome(r, fs.entries) == MoveFileSpec(old(fs.entries),
      Some(JavaString(sourceDir) + [Separator] + JavaString(sourceFile)), destinationPath)
  {
    r := MoveFile(fs, Some(JavaString(sourceDir) + [Separator] + JavaString(sourceFile)),
                  destinationPath, atomicMoveSupported);
  }
}
