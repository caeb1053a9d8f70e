/** The file sinks of pkg/template/writer.go.

    `MemoryFileWriter` keeps written files in a map; `DefaultFileWriter`
    validates the name, confines it to the base directory, and writes
    through a ".tmp" sibling that is then renamed. The operating system is
    the class `FileSystem`: a map from path to content and a set of
    directories, with the paths on which the system refuses to create, write
    or rename given up front. The lexical path functions of Go's
    `path/filepath` stay uninterpreted.

    Each sink's behaviour is a pure function of its state (`MemoryWrite`,
    `DiskWrite`, `DiskSetBaseDir`); the classes' methods perform the same
    steps in place and are proved to end in the state those functions
    describe, and the lemmas state what the functions guarantee. */
module Writer {
  import opened Wrappers
  import opened ByteStrings

  /** Go strings are byte strings; paths are kept as bytes. */
  type Path = Bytes

  const DotDot: Bytes := [46, 46]             // ".."
  const Dot: Bytes := [46]                    // "."
  const TmpSuffix: Bytes := [46, 116, 109, 112] // ".tmp"

  /** `filepath.Join`, `Clean`, `Rel` (None when it fails) and `Dir`. */
  datatype PathOps = PathOps(
    join: (Path, Path) -> Path,
    clean: Path -> Path,
    rel: (Path, Path) -> Option<Path>,
    dir: Path -> Path)

  /** The errors the two writers return. */
  datatype WriteError =
    | EmptyFilename
    | PathTraversal(filename: Path)
    | OutsideBaseDir(path: Path)
    | CreateDirFailed(dir: Path)
    | StatFailed(dir: Path)
    | NotADirectory(dir: Path)
    | TmpWriteFailed(path: Path)
    | RenameFailed(path: Path)

  type Status = Result<(), WriteError>

  /* ---------------- The file system ---------------- */

  /** The disk: regular files with their content, and directories. */
  class FileSystem {
    var files: map<Path, Bytes>
    var dirs: set<Path>
    /** Paths on which the system refuses to make a directory, write a file
        or rename a file onto. */
    const refused: set<Path>

    constructor (files0: map<Path, Bytes>, dirs0: set<Path>, refused0: set<Path>)
      ensures files == files0 && dirs == dirs0 && refused == refused0
    {
      files, dirs, refused := files0, dirs0, refused0;
    }

    /** `os.MkdirAll`: succeeds unless refused or a regular file is in the
        way; an existing directory is left as it is. */
    method MkdirAll(p: Path) returns (ok: bool)
      modifies this
      ensures ok == MkdirAllowed(old(files), refused, p)
      ensures files == old(files)
      ensures dirs == if ok then old(dirs) + {p} else old(dirs)
      ensures ok ==> Stat(p) == Some(true)
    {
      ok := MkdirAllowed(files, refused, p);
      if ok {
        dirs := dirs + {p};
      }
    }

    /** `os.Stat(p).IsDir()`, None when nothing is at `p`. */
    function Stat(p: Path): Option<bool>
      reads this
    {
      StatOf(files, dirs, p)
    }

    /** `os.WriteFile`: creates or truncates a regular file. */
    method WriteFile(p: Path, content: Bytes) returns (ok: bool)
      modifies this
      ensures ok == WriteAllowed(dirs, refused, p)
      ensures files == if ok then old(files)[p := content] else old(files)
      ensures dirs == old(dirs)
    {
      ok := WriteAllowed(dirs, refused, p);
      if ok {
        files := files[p := content];
      }
    }

    /** `os.Rename` of a regular file, replacing what is at `to`. */
    method Rename(from: Path, to: Path) returns (ok: bool)
      modifies this
      ensures ok == (from in old(files) && WriteAllowed(dirs, refused, to))
      ensures files == if ok then Moved(old(files), from, to) else old(files)
      ensures dirs == old(dirs)
    {
      ok := from in files && WriteAllowed(dirs, refused, to);
      if ok {
        files := Moved(files, from, to);
      }
    }

    /** `os.Remove` of a regular file; its error is ignored by the caller. */
    method Remove(p: Path)
      modifies this
      ensures files == old(files) - {p} && dirs == old(dirs)
    {
      files := files - {p};
    }
  }

  predicate MkdirAllowed(files: map<Path, Bytes>, refused: set<Path>, p: Path)
  {
    p !in refused && p !in files
  }

  predicate WriteAllowed(dirs: set<Path>, refused: set<Path>, p: Path)
  {
    p !in refused && p !in dirs
  }

  function StatOf(files: map<Path, Bytes>, dirs: set<Path>, p: Path): Option<bool>
  {
    if p in dirs then Some(true) else if p in files then Some(false) else None
  }

  /** The files after `from` has been renamed to `to`. */
  function Moved(files: map<Path, Bytes>, from: Path, to: Path): (m: map<Path, Bytes>)
    requires from in files
    ensures to in m && m[to] == files[from]
    ensures from != to ==> from !in m
    ensures forall k | k != from && k != to :: (k in m <==> k in files) && (k in m ==> m[k] == files[k])
  {
    (files - {from})[to := files[from]]
  }

  /* ---------------- MemoryFileWriter ---------------- */

  /** The key a memory write is stored under. */
  function MemoryKey(ops: PathOps, baseDir: Path, filename: Path): Path
  {
    if baseDir == [] then filename else ops.join(baseDir, filename)
  }

  /** The map after storing `content` under `key`; a nil map (None) is
      made first. The entry is the new content, every other entry is as it
      was, and no entry is lost. */
  function Store(files: Option<map<Path, Bytes>>, key: Path, content: Bytes): (m: map<Path, Bytes>)
    ensures key in m && m[key] == content
    ensures files.None? ==> m.Keys == {key}
    ensures files.Some? ==> m.Keys == files.value.Keys + {key}
    ensures files.Some? ==> forall k | k in files.value && k != key :: m[k] == files.value[k]
  {
    var base := if files.None? then map[] else files.value;
    base[key := content]
  }

  /** MemoryFileWriter.WriteFile on its state: what it returns and its map
      afterwards. */
  datatype MemoryState = MemoryState(files: Option<map<Path, Bytes>>, baseDir: Path)

  function MemoryWrite(ops: PathOps, s: MemoryState, filename: Path, content: Bytes): (Status, MemoryState)
  {
    if filename == [] then (Failure(EmptyFilename), s)
    else (Success(()), s.(files := Some(Store(s.files, MemoryKey(ops, s.baseDir, filename), content))))
  }

  class MemoryFileWriter {
    /** Go's `Files` field; None is the nil map of the zero value. */
    var files: Option<map<Path, Bytes>>
    var baseDir: Path
    const ops: PathOps

    /** The zero value `&MemoryFileWriter{}`. */
    constructor (ops: PathOps)
      ensures files == None && baseDir == [] && this.ops == ops
    {
      files, baseDir, this.ops := None, [], ops;
    }

    function State(): MemoryState
      reads this
    {
      MemoryState(files, baseDir)
    }

    /** The directory is cleaned and stored, never validated. */
    method SetBaseDir(dir: Path) returns (r: Status)
      modifies this
      ensures r == Success(())
      ensures baseDir == ops.clean(dir) && files == old(files)
    {
      baseDir := ops.clean(dir);
      r := Success(());
    }

    method WriteFile(filename: Path, content: Bytes) returns (r: Status)
      modifies this
      ensures (r, State()) == MemoryWrite(ops, old(State()), filename, content)
    {
      if filename == [] {
        return Failure(EmptyFilename);
      }
      if files.None? {
        files := Some(map[]);
      }
      var fullPath := filename;
      if baseDir != [] {
        fullPath := ops.join(baseDir, filename);
      }
      files := Some(files.value[fullPath := content]);
      r := Success(());
    }
  }

  /** A series of memory writes, in order. */
  function MemoryWrites(ops: PathOps, s: MemoryState, writes: seq<(Path, Bytes)>): MemoryState
    decreases |writes|
  {
    if writes == [] then s
    else MemoryWrites(ops, MemoryWrite(ops, s, writes[0].0, writes[0].1).1, writes[1..])
  }

  /* ---------------- DefaultFileWriter ---------------- */

  /** What DefaultFileWriter touches: its base directory and the disk. */
  datatype DiskState = DiskState(baseDir: Path, files: map<Path, Bytes>, dirs: set<Path>, refused: set<Path>)

  /** The path DefaultFileWriter.WriteFile writes a name to, before the
      confinement check. */
  function CleanPath(ops: PathOps, baseDir: Path, filename: Path): Path
  {
    ops.clean(if baseDir == [] then filename else ops.join(baseDir, filename))
  }

  /** The confinement check: the cleaned path, relative to the base
      directory, must exist and must not start with "..". */
  predicate Confined(ops: PathOps, baseDir: Path, clean: Path)
  {
    baseDir == [] || (ops.rel(baseDir, clean).Some? && !HasPrefix(ops.rel(baseDir, clean).value, DotDot))
  }

  /** The parent directory WriteFile creates, if any. */
  predicate NeedsParent(dir: Path)
  {
    dir != [] && dir != Dot
  }

  /** DefaultFileWriter.WriteFile on the disk: what it returns and the disk
      afterwards. */
  function DiskWrite(ops: PathOps, s: DiskState, filename: Path, content: Bytes): (Status, DiskState)
  {
    if filename == [] then (Failure(EmptyFilename), s)
    else if Contains(filename, DotDot) then (Failure(PathTraversal(filename)), s)
    else
      var clean := CleanPath(ops, s.baseDir, filename);
      if !Confined(ops, s.baseDir, clean) then (Failure(OutsideBaseDir(clean)), s)
      else
        var dir := ops.dir(clean);
        if NeedsParent(dir) && !MkdirAllowed(s.files, s.refused, dir) then (Failure(CreateDirFailed(dir)), s)
        else
          var s1 := if NeedsParent(dir) then s.(dirs := s.dirs + {dir}) else s;
          var tmp := clean + TmpSuffix;
          if !WriteAllowed(s1.dirs, s1.refused, tmp) then (Failure(TmpWriteFailed(clean)), s1)
          else if !WriteAllowed(s1.dirs, s1.refused, clean) then
            (Failure(RenameFailed(clean)), s1.(files := s1.files - {tmp}))
          else (Success(()), s1.(files := Moved(s1.files[tmp := content], tmp, clean)))
  }

  /** DefaultFileWriter.SetBaseDir on the disk: "" clears the base
      directory; otherwise the cleaned directory is created, checked, and
      stored. */
  function DiskSetBaseDir(ops: PathOps, s: DiskState, dir: Path): (Status, DiskState)
  {
    if dir == [] then (Success(()), s.(baseDir := []))
    else
      var clean := ops.clean(dir);
      if !MkdirAllowed(s.files, s.refused, clean) then (Failure(CreateDirFailed(clean)), s)
      else
        var s1 := s.(dirs := s.dirs + {clean});
        var st := StatOf(s1.files, s1.dirs, clean);
        if st.None? then (Failure(StatFailed(clean)), s1)
        else if !st.value then (Failure(NotADirectory(clean)), s1)
        else (Success(()), s1.(baseDir := clean))
  }

  class DefaultFileWriter {
    var baseDir: Path
    const fs: FileSystem
    const ops: PathOps

    /** The zero value `&DefaultFileWriter{}` over a given disk. */
    constructor (fs: FileSystem, ops: PathOps)
      ensures baseDir == [] && this.fs == fs && this.ops == ops
    {
      baseDir, this.fs, this.ops := [], fs, ops;
    }

    function State(): DiskState
      reads this, fs
    {
      DiskState(baseDir, fs.files, fs.dirs, fs.refused)
    }

    method SetBaseDir(dir: Path) returns (r: Status)
      modifies this, fs
      ensures (r, State()) == DiskSetBaseDir(ops, old(State()), dir)
    {
      if dir == [] {
        baseDir := [];
        return Success(());
      }
      var cleanDir := ops.clean(dir);
      var made := fs.MkdirAll(cleanDir);
      if !made {
        return Failure(CreateDirFailed(cleanDir));
      }
      var info := fs.Stat(cleanDir);
      if info.None? {
        return Failure(StatFailed(cleanDir));
      }
      if !info.value {
        return Failure(NotADirectory(cleanDir));
      }
      baseDir := cleanDir;
      r := Success(());
    }

    method WriteFile(filename: Path, content: Bytes) returns (r: Status)
      modifies fs
      ensures (r, State()) == DiskWrite(ops, old(State()), filename, content)
    {
      if filename == [] {
        return Failure(EmptyFilename);
      }
      if Contains(filename, DotDot) {
        return Failure(PathTraversal(filename));
      }
      var fullPath := filename;
      if baseDir != [] {
        fullPath := ops.join(baseDir, filename);
      }
      var cleanFilename := ops.clean(fullPath);
      if baseDir != [] {
        var relPath := ops.rel(baseDir, cleanFilename);
        if relPath.None? || HasPrefix(relPath.value, DotDot) {
          return Failure(OutsideBaseDir(cleanFilename));
        }
      }
      var dir := ops.dir(cleanFilename);
      if dir != [] && dir != Dot {
        var made := fs.MkdirAll(dir);
        if !made {
          return Failure(CreateDirFailed(dir));
        }
      }
      var tmpFile := cleanFilename + TmpSuffix;
      var written := fs.WriteFile(tmpFile, content);
      if !written {
        return Failure(TmpWriteFailed(cleanFilename));
      }
      var renamed := fs.Rename(tmpFile, cleanFilename);
      if !renamed {
        ghost var before := fs.files;
        fs.Remove(tmpFile);
        assert fs.files == before - {tmpFile} == old(fs.files) - {tmpFile};
        return Failure(RenameFailed(cleanFilename));
      }
      r := Success(());
    }
  }
}
