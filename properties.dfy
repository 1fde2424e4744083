/** What the move guarantees, stated over the specification functions of FileUtils. */
module MoveProperties {
  import opened Results
  import opened Paths
  import opened Names
  import opened Store
  import opened FileUtils

  // ---------------------------------------------------------------------------------------
  // createPath

  /** The search finds the least suffix from i on whose candidate is free, and finds none
      exactly when every candidate up to MaxDuplicates exists. */
  lemma {:induction false} FirstFreeIsLeast(m: Entries, dir: Path, name: Segment, i: nat)
    requires 1 <= i
    ensures match FirstFree(m, dir, name, i)
      case Some(k) =>
        && i <= k <= MaxDuplicates
        && !Exists(m, dir + [Candidate(name, k)])
        && forall j | i <= j < k :: Exists(m, dir + [Candidate(name, j)])
      case None => forall j | i <= j <= MaxDuplicates :: Exists(m, dir + [Candidate(name, j)])
    ensures FirstFree(m, dir, name, i).None? <==>
      forall j | i <= j <= MaxDuplicates :: Exists(m, dir + [Candidate(name, j)])
    decreases MaxDuplicates + 1 - i
  {
    if i <= MaxDuplicates {
      FirstFreeIsLeast(m, dir, name, i + 1);
    }
  }

  /** createPath returns dir.resolve(fileName) unchanged exactly when that path is the
      source itself, replacing is allowed, or the path does not exist. */
  lemma CreatePathKeepsName(m: Entries, from: Path, to: Path, allowReplaceExisting: bool)
    requires from != []
    ensures var newPath := TargetDir(m, to) + [BaseName(m, from, to)];
      (CreatePathSpec(m, from, to, allowReplaceExisting) == Ok(newPath))
        <==> from == newPath || allowReplaceExisting || !Exists(m, newPath)
  {
    var name := BaseName(m, from, to);
    var dir := TargetDir(m, to);
    var r := FirstFree(m, dir, name, 1);
    if r.Some? {
      NumberedNameIsLonger(name, r.value);
      assert (dir + [Candidate(name, r.value)])[|dir|] != (dir + [name])[|dir|];
    }
  }

  /** Otherwise createPath returns stem_k[.extension] in the same directory for the least k
      in 1..MaxDuplicates whose path does not exist; the renamed file keeps the stem and the
      extension of the original name. */
  lemma CreatePathPicksLeastFree(m: Entries, from: Path, to: Path, allowReplaceExisting: bool,
                                 k: nat)
    requires from != []
    requires var newPath := TargetDir(m, to) + [BaseName(m, from, to)];
      from != newPath && !allowReplaceExisting && Exists(m, newPath)
    requires 1 <= k <= MaxDuplicates
    requires !Exists(m, TargetDir(m, to) + [Candidate(BaseName(m, from, to), k)])
    requires forall j | 1 <= j < k :: Exists(m, TargetDir(m, to) + [Candidate(BaseName(m, from, to), j)])
    ensures var name := BaseName(m, from, to);
      CreatePathSpec(m, from, to, allowReplaceExisting) == Ok(TargetDir(m, to) + [Candidate(name, k)])
    ensures var sp := SplitName(BaseName(m, from, to));
      sp.extension.Some? ==>
        SplitName(Candidate(BaseName(m, from, to), k)) == Split(sp.stem + "_" + DecimalString(k), sp.extension)
  {
    var name := BaseName(m, from, to);
    FirstFreeIsLeast(m, TargetDir(m, to), name, 1);
    var r := FirstFree(m, TargetDir(m, to), name, 1);
    if r.Some? {
      assert !(r.value < k) && !(k < r.value);
    }
    if SplitName(name).extension.Some? {
      NumberedNameKeepsExtension(name, k);
    }
  }

  /** createPath throws "limit of duplicate file names reached" exactly when the name and all
      of stem_1 .. stem_100 exist (and neither a self-move nor replacing applies). */
  lemma CreatePathLimit(m: Entries, from: Path, to: Path, allowReplaceExisting: bool)
    requires from != []
    ensures var name := BaseName(m, from, to);
      var dir := TargetDir(m, to);
      (CreatePathSpec(m, from, to, allowReplaceExisting) == Err(DuplicateLimitReached))
        <==> && from != dir + [name] && !allowReplaceExisting && Exists(m, dir + [name])
             && forall j | 1 <= j <= MaxDuplicates :: Exists(m, dir + [Candidate(name, j)])
  {
    FirstFreeIsLeast(m, TargetDir(m, to), BaseName(m, from, to), 1);
  }

  /** The path createPath returns lies in the target directory, and it does not exist unless
      it is the source itself or replacing is allowed; the only exception it throws is the
      duplicate limit. */
  lemma CreatePathTargetFree(m: Entries, from: Path, to: Path, allowReplaceExisting: bool)
    requires from != []
    ensures match CreatePathSpec(m, from, to, allowReplaceExisting)
      case Ok(t) =>
        && t != [] && DirOf(t) == TargetDir(m, to)
        && (t == from || allowReplaceExisting || !Exists(m, t))
      case Err(e) => e == DuplicateLimitReached
  {
    FirstFreeIsLeast(m, TargetDir(m, to), BaseName(m, from, to), 1);
  }

  // ---------------------------------------------------------------------------------------
  // move

  /** When move has to create dirToCheck and may, the fresh directory holds nothing, so the
      target createPath picks is free and the move into it succeeds. */
  lemma FreshDirectoryAccepts(m: Entries, src: Path, dst: Path, destinationIsDirectory: bool,
                              allowReplaceExisting: bool)
    requires WellFormed(m) && src in m && m[src] == File
    requires var d := DirToCheck(dst, destinationIsDirectory);
      MustCreate(m, d) && !Blocked(m, d.value)
    ensures var d := DirToCheck(dst, destinationIsDirectory);
      var m1 := Prepared(m, d);
      var t := d.value + [BaseName(m1, src, dst)];
      && CreatePathSpec(m1, src, dst, allowReplaceExisting) == Ok(t)
      && MoveEntrySpec(m1, src, t, allowReplaceExisting).Ok?
  {
    var d := DirToCheck(dst, destinationIsDirectory).value;
    var m1 := WithDirs(m, d);
    WithDirsEffect(m, d);
    if !destinationIsDirectory {
      AbsentBelow(m, d, dst);
      assert dst !in m1;
      assert TargetDir(m1, dst) == d;
    }
    var t := d + [BaseName(m1, src, dst)];
    assert t[..|d|] == d;
    AbsentBelow(m, d, t);
    assert t !in m1;
    assert DirOf(t) == d;
  }

  /** A failing move changes nothing: the checks come before any change, and once move has
      created directories nothing after it can fail. */
  lemma MoveFailureKeepsEntries(m: Entries, source: Option<Path>, destination: Option<Path>,
                                destinationIsDirectory: bool, allowReplaceExisting: bool)
    requires WellFormed(m)
    ensures var o := MoveSpec(m, source, destination, destinationIsDirectory, allowReplaceExisting);
      o.result.Err? ==> o.entries == m
  {
    if source.Some? && !IsDirectory(m, source.value) && Exists(m, source.value) && destination.Some? {
      var d := DirToCheck(destination.value, destinationIsDirectory);
      if MustCreate(m, d) && !Blocked(m, d.value) {
        FreshDirectoryAccepts(m, source.value, destination.value, destinationIsDirectory,
                              allowReplaceExisting);
      }
    }
  }

  /** When dirToCheck has to be created but one of its components exists as a plain file,
      createDirectories fails: move throws "failed to create directories for ..." naming
      dirToCheck, and nothing changes. */
  lemma MoveBlockedDirectoryFails(m: Entries, src: Path, dst: Path, destinationIsDirectory: bool,
                                  allowReplaceExisting: bool)
    requires WellFormed(m) && src in m && m[src] == File
    requires var d := DirToCheck(dst, destinationIsDirectory);
      MustCreate(m, d) && Blocked(m, d.value)
    ensures MoveSpec(m, Some(src), Some(dst), destinationIsDirectory, allowReplaceExisting)
      == Outcome(Err(CreateDirectoriesFailed(DirToCheck(dst, destinationIsDirectory).value)), m)
  {
  }

  /** And that is the only way to that exception: the arguments passed the checks,
      dirToCheck had to be created, a component of it is a plain file, and the message
      names dirToCheck. */
  lemma CreateDirectoriesFailsOnlyWhenBlocked(m: Entries, source: Option<Path>,
                                              destination: Option<Path>,
                                              destinationIsDirectory: bool,
                                              allowReplaceExisting: bool, dir: Path)
    requires WellFormed(m)
    requires MoveSpec(m, source, destination, destinationIsDirectory, allowReplaceExisting).result
      == Err(CreateDirectoriesFailed(dir))
    ensures source.Some? && source.value in m && m[source.value] == File && destination.Some?
    ensures var d := DirToCheck(destination.value, destinationIsDirectory);
      MustCreate(m, d) && Blocked(m, d.value) && dir == d.value
  {
    var src, dst := source.value, destination.value;
    var d := DirToCheck(dst, destinationIsDirectory);
    if !(MustCreate(m, d) && Blocked(m, d.value)) {
      CreatePathTargetFree(Prepared(m, d), src, dst, allowReplaceExisting);
    }
  }

  /** With destinationIsDirectory false, a destination whose parent is a plain file: that
      parent exists, so nothing is created; the target is the destination itself, and
      Files.move fails because its directory is not one, so move throws "Cannot move file"
      and nothing changes. */
  lemma MoveUnderPlainFileFails(m: Entries, src: Path, dst: Path, allowReplaceExisting: bool)
    requires WellFormed(m) && src in m && m[src] == File
    requires |dst| > 1 && DirOf(dst) in m && m[DirOf(dst)] == File
    ensures MoveSpec(m, Some(src), Some(dst), false, allowReplaceExisting)
      == Outcome(Err(CannotMove(src, dst)), m)
  {
    assert dst !in m;
    DirOfIsParent(dst);
    assert TargetDir(m, dst) + [BaseName(m, src, dst)] == dst;
    assert CreatePathSpec(m, src, dst, allowReplaceExisting) == Ok(dst);
  }

  /** A destination that exists as a plain file is already there when move checks
      dirToCheck, whichever way destinationIsDirectory points, so the flag changes nothing:
      the move is the one to that file name. */
  lemma MoveToExistingFileIgnoresFlag(m: Entries, source: Option<Path>, dst: Path,
                                      allowReplaceExisting: bool)
    requires WellFormed(m) && dst in m && m[dst] == File
    ensures MoveSpec(m, source, Some(dst), true, allowReplaceExisting)
      == MoveSpec(m, source, Some(dst), false, allowReplaceExisting)
  {
    assert Exists(m, DirOf(dst));
    DirOfIsParent(dst);
    assert !MustCreate(m, DirToCheck(dst, true)) && !MustCreate(m, DirToCheck(dst, false));
  }

  /** A successful move leaves the file at the returned path and the source gone (unless the
      two coincide); every other entry keeps its kind, the only new entries besides the
      target are directories along dirToCheck, and the file system stays well-formed. */
  lemma MoveSuccessPlacesFile(m: Entries, source: Option<Path>, destination: Option<Path>,
                              destinationIsDirectory: bool, allowReplaceExisting: bool)
    requires WellFormed(m)
    requires MoveSpec(m, source, destination, destinationIsDirectory, allowReplaceExisting).result.Ok?
    ensures source.Some? && destination.Some?
    ensures var o := MoveSpec(m, source, destination, destinationIsDirectory, allowReplaceExisting);
      var t, m' := o.result.value, o.entries;
      var d := DirToCheck(destination.value, destinationIsDirectory);
      && WellFormed(m')
      && t in m' && m'[t] == File
      && (t != source.value ==> source.value !in m')
      && (forall p | p in m && p != source.value && p != t :: p in m' && m'[p] == m[p])
      && (forall p | p in m' && p !in m && p != t ::
            m'[p] == Dir && d.Some? && |p| <= |d.value| && d.value[..|p|] == p)
  {
    var src, dst := source.value, destination.value;
    var d := DirToCheck(dst, destinationIsDirectory);
    var m1 := Prepared(m, d);
    if MustCreate(m, d) {
      WithDirsEffect(m, d.value);
    }
    var t := CreatePathSpec(m1, src, dst, allowReplaceExisting).value;
    CreatePathTargetFree(m1, src, dst, allowReplaceExisting);
    MoveEntryEffect(m1, src, t, allowReplaceExisting);
  }

  /** Without allowReplaceExisting no entry that existed before is overwritten: the target
      did not exist (or is the source itself) and every other old entry is unchanged. */
  lemma MoveNeverOverwrites(m: Entries, source: Option<Path>, destination: Option<Path>,
                            destinationIsDirectory: bool)
    requires WellFormed(m)
    requires MoveSpec(m, source, destination, destinationIsDirectory, false).result.Ok?
    ensures source.Some?
    ensures var o := MoveSpec(m, source, destination, destinationIsDirectory, false);
      && (o.result.value == source.value || o.result.value !in m)
      && forall p | p in m && p != source.value :: p in o.entries && o.entries[p] == m[p]
  {
    var src, dst := source.value, destination.value;
    var d := DirToCheck(dst, destinationIsDirectory);
    var m1 := Prepared(m, d);
    if MustCreate(m, d) {
      WithDirsEffect(m, d.value);
    }
    CreatePathTargetFree(m1, src, dst, false);
    MoveSuccessPlacesFile(m, source, destination, destinationIsDirectory, false);
  }

  /** Moving a file to the path it already occupies succeeds with that path, renames
      nothing, changes nothing and needs no permission to replace. */
  lemma MoveOntoItself(m: Entries, src: Path, dst: Path, destinationIsDirectory: bool,
                       allowReplaceExisting: bool)
    requires WellFormed(m) && src in m && m[src] == File
    requires TargetDir(m, dst) + [BaseName(m, src, dst)] == src
    ensures MoveSpec(m, Some(src), Some(dst), destinationIsDirectory, allowReplaceExisting)
      == Outcome(Ok(src), m)
  {
    if IsDirectory(m, dst) {
      assert dst == DirOf(src);
      if |dst| > 1 {
        AncestorsAreDirectories(m, src, |dst| - 1);
        assert src[..|dst| - 1] == dst[..|dst| - 1];
      }
    } else {
      assert dst == src;
    }
    assert !MustCreate(m, DirToCheck(dst, destinationIsDirectory));
  }

  /** With allowReplaceExisting an existing file at the destination is replaced by the
      source, under the destination's own name and with no suffix. */
  lemma MoveReplacesFile(m: Entries, src: Path, dst: Path)
    requires WellFormed(m) && src in m && m[src] == File
    requires dst in m && m[dst] == File && dst != src
    ensures MoveSpec(m, Some(src), Some(dst), false, true)
      == Outcome(Ok(dst), (m - {src})[dst := File])
  {
    assert Exists(m, DirOf(dst));
    assert TargetDir(m, dst) + [BaseName(m, src, dst)] == dst;
    assert !HasChildren(m, dst) by {
      forall q | q in m && q != [] ensures DirOf(q) != dst {
        assert IsDirectory(m, DirOf(q));
      }
    }
  }

  lemma OrderCsvCandidate()
    ensures Candidate("order.csv", 1) == "order_1.csv"
  {
    var name: Segment := "order.csv";
    assert name[5] == '.' && name[6] == 'c' && name[7] == 's';
    assert LastDot(name, 5) == Some(5);
    assert LastDot(name, 7) == LastDot(name, 6) == LastDot(name, 5);
    assert SplitName(name) == Split("order", Some("csv"));
    assert DecimalString(1) == "1";
  }

  /** The collision example: with order.csv present in the destination directory, the file
      arrives as order_1.csv. */
  lemma OrderCsvIsRenamed(m: Entries)
    requires m == map[["in"] := Dir, ["in", "order.csv"] := File,
                      ["out"] := Dir, ["out", "order.csv"] := File]
    ensures MoveSpec(m, Some(["in", "order.csv"]), Some(["out"]), true, false).result
      == Ok(["out", "order_1.csv"])
  {
    OrderCsvCandidate();
    var name: Segment := "order.csv";
    var src: Path := ["in", "order.csv"];
    var out: Path := ["out"];
    var taken: Path := ["out", "order.csv"];
    var t: Path := ["out", "order_1.csv"];
    assert out + [Candidate(name, 1)] == t && t !in m;
    assert FirstFree(m, out, name, 1) == Some(1);
    assert out + [name] == taken && taken in m;
    assert IsDirectory(m, out) && BaseName(m, src, out) == name;
    assert CreatePathSpec(m, src, out, false) == Ok(t);
    assert MoveEntrySpec(m, src, t, false).Ok?;
  }

  // ---------------------------------------------------------------------------------------
  // moveFile

  /** moveFile throws before anything changes for a null or blank source, for no
      destination segments and for a null segment, in that order. */
  lemma MoveFileRejectsBadArguments(m: Entries, sourceFilePath: Option<string>,
                                    toPathSegments: seq<Option<string>>)
    ensures var o := MoveFileSpec(m, sourceFilePath, toPathSegments);
      if sourceFilePath.None? || IsBlank(sourceFilePath.value) then o == Outcome(Err(NoSourcePath), m)
      else if toPathSegments == [] then o == Outcome(Err(NoDestinationPath), m)
      else if exists i | 0 <= i < |toPathSegments| :: toPathSegments[i].None? then
        o == Outcome(Err(NullSegment), m)
      else true
  {
  }

  /** move to a destination directory that does not exist yet creates it (and its missing
      ancestors) and places the file inside under the source's own name. */
  lemma MoveIntoNewDirectory(m: Entries, src: Path, dst: Path)
    requires WellFormed(m) && src in m && m[src] == File
    requires !Exists(m, dst) && !Blocked(m, dst)
    ensures var o := MoveSpec(m, Some(src), Some(dst), true, false);
      var t := dst + [FileName(src)];
      && o.result == Ok(t)
      && IsDirectory(o.entries, dst)
      && t in o.entries && o.entries[t] == File
      && src !in o.entries
  {
    FreshDirectoryAccepts(m, src, dst, true, false);
    WithDirsEffect(m, dst);
    var m1 := WithDirs(m, dst);
    assert IsDirectory(m1, dst) && BaseName(m1, src, dst) == FileName(src);
    var t := dst + [FileName(src)];
    MoveEntryEffect(m1, src, t, false);
    assert dst != src && dst != t;
  }

  /** A destination that does not exist, whose last name element holds no dot or whose raw
      last segment ends with the separator, becomes a new directory (its missing ancestors
      too) holding the file under the source's own name. */
  lemma MoveFileIntoNewDirectory(m: Entries, sourceFilePath: string,
                                 toPathSegments: seq<Option<string>>)
    requires WellFormed(m) && !IsBlank(sourceFilePath)
    requires ParsePath(sourceFilePath) in m && m[ParsePath(sourceFilePath)] == File
    requires toPathSegments != [] && AllPresent(toPathSegments)
    requires var segments := Values(toPathSegments);
      var dst := Destination(segments);
      && !Exists(m, dst) && !Blocked(m, dst)
      && ('.' !in FileName(dst) || EndsWithSeparator(segments[|segments| - 1]))
    ensures var src := ParsePath(sourceFilePath);
      var dst := Destination(Values(toPathSegments));
      var o := MoveFileSpec(m, Some(sourceFilePath), toPathSegments);
      && o.result == Ok(Render(dst + [FileName(src)]))
      && IsDirectory(o.entries, dst)
      && dst + [FileName(src)] in o.entries && o.entries[dst + [FileName(src)]] == File
      && ParsePath(sourceFilePath) !in o.entries
  {
    var src := ParsePath(sourceFilePath);
    var segments := Values(toPathSegments);
    var dst := Destination(segments);
    assert LooksLikeADirectory(m, dst) || EndsWithSeparator(segments[|segments| - 1]);
    assert MoveFileSpec(m, Some(sourceFilePath), toPathSegments)
      == Rendered(MoveSpec(m, Some(src), Some(dst), true, false));
    MoveIntoNewDirectory(m, src, dst);
  }

  /** A destination that exists as a plain file is classified as a directory, yet moveFile
      then behaves exactly as a move to that file name: the file lands beside it, renamed to
      avoid the collision. */
  lemma MoveFileOntoExistingFile(m: Entries, sourceFilePath: string,
                                 toPathSegments: seq<Option<string>>)
    requires WellFormed(m) && !IsBlank(sourceFilePath)
    requires toPathSegments != [] && AllPresent(toPathSegments)
    requires var dst := Destination(Values(toPathSegments));
      dst in m && m[dst] == File
    ensures var dst := Destination(Values(toPathSegments));
      MoveFileSpec(m, Some(sourceFilePath), toPathSegments)
        == Rendered(MoveSpec(m, Some(ParsePath(sourceFilePath)), Some(dst), false, false))
  {
    MoveToExistingFileIgnoresFlag(m, Some(ParsePath(sourceFilePath)),
                                  Destination(Values(toPathSegments)), false);
  }

  /** moveDirectoryFile never reports a missing source: sourceDir + "/" + sourceFile is never
      blank, even when either part is null. */
  lemma MoveDirectoryFileHasSource(m: Entries, sourceDir: Option<string>, sourceFile: Option<string>,
                                   destinationPath: seq<Option<string>>)
    ensures MoveFileSpec(m, Some(JavaString(sourceDir) + [Separator] + JavaString(sourceFile)),
                         destinationPath).result != Err(NoSourcePath)
  {
    var s := JavaString(sourceDir) + [Separator] + JavaString(sourceFile);
    assert s[|JavaString(sourceDir)|] == Separator;
  }
}
