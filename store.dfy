/** The file system as seen through java.nio.file.Files: a map from each existing path to
    the kind of entry it names. The empty path "" is the working directory; it always exists,
    is always a directory and is not itself a key of the map. */
module Store {
  import opened Results
  import opened Paths

  datatype Kind = File | Dir

  type Entries = map<Path, Kind>

  /** Files.exists */
  predicate Exists(m: Entries, p: Path)
  {
    p == [] || p in m
  }

  /** Files.isDirectory */
  predicate IsDirectory(m: Entries, p: Path)
  {
    p == [] || (p in m && m[p] == Dir)
  }

  /** The directory that holds the entry p: Path.getParent(), with the working directory
      standing in where getParent() gives null (a one-element path). */
  function DirOf(p: Path): Path
    requires p != []
  {
    p[..|p| - 1]
  }

  /** DirOf and Path.getParent() agree wherever getParent() is not null. */
  lemma DirOfIsParent(p: Path)
    requires p != []
    ensures Parent(p) == if |p| > 1 then Some(DirOf(p)) else None
    ensures DirOf(p) + [FileName(p)] == p
  {
  }

  /** Every entry sits inside an existing directory. */
  ghost predicate WellFormed(m: Entries)
  {
    [] !in m && forall p | p in m :: IsDirectory(m, DirOf(p))
  }

  /** Some name-element prefix of dir (dir included) exists and is not a directory. */
  predicate Blocked(m: Entries, dir: Path)
  {
    exists k | 1 <= k <= |dir| :: dir[..k] in m && m[dir[..k]] == File
  }

  /** The entries after Files.createDirectories(dir): every missing prefix of dir added as a
      directory. */
  function WithDirs(m: Entries, dir: Path): Entries
  {
    m + map k | 1 <= k <= |dir| && dir[..k] !in m :: dir[..k] := Dir
  }

  /** Some entry lies directly inside p. */
  predicate HasChildren(m: Entries, p: Path)
  {
    exists q | q in m :: q != [] && DirOf(q) == p
  }

  /** The IOExceptions of Files.move that the model distinguishes. */
  datatype StoreError = NoSuchFile | FileAlreadyExists | DirectoryNotEmpty | AtomicMoveNotSupported

  /** The effect of Files.move(source, target[, REPLACE_EXISTING]) on a regular file: moving a
      file onto itself does nothing; an existing target is an error unless replacing is
      allowed, and even then a non-empty directory cannot be replaced; the target's directory
      must exist. */
  function MoveEntrySpec(m: Entries, source: Path, target: Path, replaceExisting: bool)
    : Result<Entries, StoreError>
    requires target != []
  {
    if !(source in m && m[source] == File) then Err(NoSuchFile)
    else if target == source then Ok(m)
    else if target in m && !replaceExisting then Err(FileAlreadyExists)
    else if target in m && HasChildren(m, target) then Err(DirectoryNotEmpty)
    else if !IsDirectory(m, DirOf(target)) then Err(NoSuchFile)
    else Ok((m - {source})[target := File])
  }

  /** Every proper prefix of an entry is an existing directory. */
  lemma {:induction false} AncestorsAreDirectories(m: Entries, p: Path, k: nat)
    requires WellFormed(m) && p in m && k < |p|
    ensures IsDirectory(m, p[..k])
    decreases |p| - k
  {
    if k < |p| - 1 {
      var up := DirOf(p);
      assert up[..k] == p[..k];
      AncestorsAreDirectories(m, up, k);
    }
  }

  /** Nothing exists below a path that does not exist. */
  lemma AbsentBelow(m: Entries, p: Path, q: Path)
    requires WellFormed(m) && !Exists(m, p)
    requires |p| <= |q| && q[..|p|] == p
    ensures q !in m
  {
    if q in m && |p| < |q| {
      AncestorsAreDirectories(m, q, |p|);
    }
    assert |p| == |q| ==> q == p;
  }

  /** createDirectories, when no component is blocked, keeps every entry, makes dir an
      existing directory, adds nothing but directories along dir, and keeps the map
      well-formed. */
  lemma WithDirsEffect(m: Entries, dir: Path)
    requires WellFormed(m) && !Blocked(m, dir)
    ensures var m' := WithDirs(m, dir);
      && WellFormed(m')
      && IsDirectory(m', dir)
      && (forall p | p in m :: p in m' && m'[p] == m[p])
      && (forall p | p in m' && p !in m :: m'[p] == Dir && |p| <= |dir| && dir[..|p|] == p)
  {
    var m' := WithDirs(m, dir);
    forall p | p in m' ensures IsDirectory(m', DirOf(p)) {
      if p in m {
        assert IsDirectory(m, DirOf(p));
      } else {
        var k :| 1 <= k <= |dir| && p == dir[..k];
        assert DirOf(p) == dir[..k - 1];
        if k > 1 && dir[..k - 1] in m {
          assert m[dir[..k - 1]] != File;
        }
      }
    }
    if dir != [] {
      assert dir[..|dir|] == dir;
      if dir in m { assert m[dir[..|dir|]] != File; }
    }
  }

  /** A successful Files.move leaves the target an existing file, removes the source unless
      the two coincide, changes no other entry and keeps the map well-formed. */
  lemma MoveEntryEffect(m: Entries, source: Path, target: Path, replaceExisting: bool)
    requires WellFormed(m) && target != []
    requires MoveEntrySpec(m, source, target, replaceExisting).Ok?
    ensures var m' := MoveEntrySpec(m, source, target, replaceExisting).value;
      && WellFormed(m')
      && target in m' && m'[target] == File
      && (source != target ==> source !in m')
      && (forall p | p in m && p != source && p != target :: p in m' && m'[p] == m[p])
      && (forall p | p in m' :: p in m || p == target)
  {
    if source != target {
      var m' := (m - {source})[target := File];
      forall p | p in m' ensures IsDirectory(m', DirOf(p)) {
        if p != target {
          assert IsDirectory(m, DirOf(p));
        }
      }
    }
  }

  /** The file system, as the mutable state that Files.createDirectories and Files.move
      change. */
  class FileStore {
    var entries: Entries

    ghost predicate Valid()
      reads this
    {
      WellFormed(entries)
    }

    constructor (initial: Entries)
      requires WellFormed(initial)
      ensures Valid() && entries == initial
    {
      entries := initial;
    }

    /** Files.createDirectories(dir): fails, changing nothing, when a component of dir exists
        and is not a directory; otherwise creates every missing component. */
    method CreateDirectories(dir: Path) returns (created: bool)
      requires Valid()
      modifies this
      ensures Valid()
      ensures created <==> !Blocked(old(entries), dir)
      ensures entries == if created then WithDirs(old(entries), dir) else old(entries)
    {
      created := !Blocked(entries, dir);
      if created {
        WithDirsEffect(entries, dir);
        entries := WithDirs(entries, dir);
      }
    }

    /** Files.move(source, target, options): with ATOMIC_MOVE requested on a file system that
        cannot honour it, AtomicMoveNotSupportedException and no change; otherwise the effect
        of MoveEntrySpec, with the target as the result. */
    method MoveEntry(source: Path, target: Path, replaceExisting: bool, atomicMove: bool,
                     atomicMoveSupported: bool)
      returns (r: Result<Path, StoreError>)
      requires Valid() && target != []
      modifies this
      ensures Valid()
      ensures atomicMove && !atomicMoveSupported ==>
        r == Err(AtomicMoveNotSupported) && entries == old(entries)
      ensures !atomicMove || atomicMoveSupported ==>
        match MoveEntrySpec(old(entries), source, target, replaceExisting)
        case Ok(m') => r == Ok(target) && entries == m'
        case Err(e) => r == Err(e) && entries == old(entries)
    {
      if atomicMove && !atomicMoveSupported {
        return Err(AtomicMoveNotSupported);
      }
      var outcome := MoveEntrySpec(entries, source, target, replaceExisting);
      if outcome.Err? {
        return Err(outcome.error);
      }
      MoveEntryEffect(entries, source, target, replaceExisting);
      entries := outcome.value;
      r := Ok(target);
    }
  }
}
