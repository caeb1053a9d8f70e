/** What the two file sinks of pkg/template/writer.go guarantee: an empty
    name is refused and changes nothing, a memory write stores under its key
    and keeps every other entry, the last write to a key wins, distinct
    names give as many entries, and the disk writer refuses ".." before it
    looks at the base directory, confines the path, and leaves either the
    new content and no ".tmp" file, or the old files less the ".tmp" file. */
module WriterProofs {
  import opened Wrappers
  import opened ByteStrings
  import opened Writer

  /* ---------------- Both writers ---------------- */

  /** Both writers refuse an empty name with an error and leave their
      state as it was. */
  lemma {:induction false} EmptyNameRejected(ops: PathOps, m: MemoryState, d: DiskState, content: Bytes)
    ensures MemoryWrite(ops, m, [], content) == (Failure(EmptyFilename), m)
    ensures DiskWrite(ops, d, [], content) == (Failure(EmptyFilename), d)
  {
  }

  /* ---------------- MemoryFileWriter ---------------- */

  /** A memory write with a name succeeds; the map afterwards holds the
      content under the name, or under the name joined to the base
      directory when one is set, and every other entry is unchanged. A nil
      map is made first. */
  lemma {:induction false} MemoryWriteStores(ops: PathOps, s: MemoryState, filename: Path, content: Bytes)
    requires filename != []
    ensures var (r, s') := MemoryWrite(ops, s, filename, content);
      var key := if s.baseDir == [] then filename else ops.join(s.baseDir, filename);
      r == Success(()) && s'.baseDir == s.baseDir && s'.files.Some?
      && key in s'.files.value && s'.files.value[key] == content
      && (s.files.None? ==> s'.files.value.Keys == {key})
      && (s.files.Some? ==>
            s'.files.value.Keys == s.files.value.Keys + {key}
            && forall k | k in s.files.value && k != key :: s'.files.value[k] == s.files.value[k])
  {
  }

  /** A series of memory writes never changes the base directory. */
  lemma {:induction false} MemoryWritesKeepBaseDir(ops: PathOps, s: MemoryState, writes: seq<(Path, Bytes)>)
    ensures MemoryWrites(ops, s, writes).baseDir == s.baseDir
    decreases |writes|
  {
    if writes != [] {
      MemoryWritesKeepBaseDir(ops, MemoryWrite(ops, s, writes[0].0, writes[0].1).1, writes[1..]);
    }
  }

  /** Last write wins: after a series of writes, a key holds the content of
      the last write with a name stored under it. */
  lemma {:induction false} MemoryLastWriteWins(ops: PathOps, s: MemoryState, writes: seq<(Path, Bytes)>, i: nat)
    requires i < |writes| && writes[i].0 != []
    requires forall j | i < j < |writes| && writes[j].0 != [] ::
               MemoryKey(ops, s.baseDir, writes[j].0) != MemoryKey(ops, s.baseDir, writes[i].0)
    ensures var key := MemoryKey(ops, s.baseDir, writes[i].0);
      var files := MemoryWrites(ops, s, writes).files;
      files.Some? && key in files.value && files.value[key] == writes[i].1
    decreases |writes|
  {
    var s1 := MemoryWrite(ops, s, writes[0].0, writes[0].1).1;
    assert s1.baseDir == s.baseDir;
    if i == 0 {
      LaterWritesKeep(ops, s1, writes[1..], MemoryKey(ops, s.baseDir, writes[0].0));
    } else {
      MemoryLastWriteWins(ops, s1, writes[1..], i - 1);
    }
  }

  /** Writes to other keys keep what a key holds. */
  lemma {:induction false} LaterWritesKeep(ops: PathOps, s: MemoryState, writes: seq<(Path, Bytes)>, key: Path)
    requires s.files.Some? && key in s.files.value
    requires forall j | 0 <= j < |writes| && writes[j].0 != [] :: MemoryKey(ops, s.baseDir, writes[j].0) != key
    ensures var files := MemoryWrites(ops, s, writes).files;
      files.Some? && key in files.value && files.value[key] == s.files.value[key]
    decreases |writes|
  {
    if writes != [] {
      var s1 := MemoryWrite(ops, s, writes[0].0, writes[0].1).1;
      LaterWritesKeep(ops, s1, writes[1..], key);
    }
  }

  /** The keys the writes of a series store under. */
  function WrittenKeys(ops: PathOps, baseDir: Path, writes: seq<(Path, Bytes)>): set<Path>
  {
    set i | 0 <= i < |writes| && writes[i].0 != [] :: MemoryKey(ops, baseDir, writes[i].0)
  }

  function KeysOf(files: Option<map<Path, Bytes>>): set<Path>
  {
    if files.None? then {} else files.value.Keys
  }

  /** The map after a series of writes has the keys it had and the keys of
      the writes with a name, and no other. */
  lemma {:induction false} MemoryWritesKeys(ops: PathOps, s: MemoryState, writes: seq<(Path, Bytes)>)
    ensures KeysOf(MemoryWrites(ops, s, writes).files) == KeysOf(s.files) + WrittenKeys(ops, s.baseDir, writes)
    decreases |writes|
  {
    if writes != [] {
      var s1 := MemoryWrite(ops, s, writes[0].0, writes[0].1).1;
      assert s1.baseDir == s.baseDir;
      MemoryWritesKeys(ops, s1, writes[1..]);
      var head := if writes[0].0 != [] then {MemoryKey(ops, s.baseDir, writes[0].0)} else {};
      assert KeysOf(s1.files) == KeysOf(s.files) + head;
      assert WrittenKeys(ops, s.baseDir, writes) == head + WrittenKeys(ops, s.baseDir, writes[1..]) by {
        forall k | k in WrittenKeys(ops, s.baseDir, writes)
          ensures k in head + WrittenKeys(ops, s.baseDir, writes[1..])
        {
          var i :| 0 <= i < |writes| && writes[i].0 != [] && k == MemoryKey(ops, s.baseDir, writes[i].0);
          if i > 0 {
            assert writes[1..][i - 1] == writes[i];
          }
        }
        forall k | k in WrittenKeys(ops, s.baseDir, writes[1..])
          ensures k in WrittenKeys(ops, s.baseDir, writes)
        {
          var i :| 0 <= i < |writes[1..]| && writes[1..][i].0 != [] && k == MemoryKey(ops, s.baseDir, writes[1..][i].0);
          assert writes[1..][i] == writes[i + 1];
        }
      }
    }
  }

  /** The names of a series of writes. */
  function Names(writes: seq<(Path, Bytes)>): set<Path>
  {
    set i | 0 <= i < |writes| :: writes[i].0
  }

  /** Writing N distinct names into an empty or nil map with no base
      directory gives exactly those N entries. */
  lemma {:induction false} MemoryDistinctNames(ops: PathOps, files: Option<map<Path, Bytes>>, writes: seq<(Path, Bytes)>)
    requires files.None? || files.value == map[]
    requires forall i | 0 <= i < |writes| :: writes[i].0 != []
    requires forall i, j | 0 <= i < j < |writes| :: writes[i].0 != writes[j].0
    ensures var after := MemoryWrites(ops, MemoryState(files, []), writes).files;
      KeysOf(after) == Names(writes) && |KeysOf(after)| == |writes|
  {
    MemoryWritesKeys(ops, MemoryState(files, []), writes);
    assert WrittenKeys(ops, [], writes) == Names(writes);
    DistinctNamesCount(writes);
  }

  /** Distinct names: as many names as writes. */
  lemma {:induction false} DistinctNamesCount(writes: seq<(Path, Bytes)>)
    requires forall i, j | 0 <= i < j < |writes| :: writes[i].0 != writes[j].0
    ensures |Names(writes)| == |writes|
    decreases |writes|
  {
    if writes != [] {
      var last := |writes| - 1;
      var init := writes[..last];
      DistinctNamesCount(init);
      assert Names(writes) == Names(init) + {writes[last].0} by {
        forall k | k in Names(writes) ensures k in Names(init) + {writes[last].0}
        {
          var i :| 0 <= i < |writes| && k == writes[i].0;
          if i < last {
            assert init[i] == writes[i];
          }
        }
      }
      assert writes[last].0 !in Names(init) by {
        forall i | 0 <= i < |init| ensures init[i].0 != writes[last].0
        {
          assert init[i] == writes[i];
        }
      }
    }
  }

  /* ---------------- DefaultFileWriter ---------------- */

  /** A name containing ".." is refused as path traversal whatever the base
      directory and the disk, and nothing is touched. */
  lemma {:induction false} TraversalRejected(ops: PathOps, s: DiskState, filename: Path, content: Bytes)
    requires filename != [] && Contains(filename, DotDot)
    ensures DiskWrite(ops, s, filename, content) == (Failure(PathTraversal(filename)), s)
  {
  }

  /** With a base directory set, a cleaned path that is not below it is
      refused before the disk is touched. */
  lemma {:induction false} OutsideBaseDirRejected(ops: PathOps, s: DiskState, filename: Path, content: Bytes)
    requires filename != [] && !Contains(filename, DotDot) && s.baseDir != []
    requires var clean := ops.clean(ops.join(s.baseDir, filename));
      ops.rel(s.baseDir, clean).None? || HasPrefix(ops.rel(s.baseDir, clean).value, DotDot)
    ensures DiskWrite(ops, s, filename, content)
            == (Failure(OutsideBaseDir(ops.clean(ops.join(s.baseDir, filename)))), s)
  {
  }

  /** The ".tmp" sibling is never the file itself. */
  lemma {:induction false} TmpIsOther(p: Path)
    ensures p + TmpSuffix != p
  {
    assert |p + TmpSuffix| == |p| + 4;
  }

  /** A successful disk write leaves the content at the cleaned path, no
      ".tmp" sibling, every other file as it was, and the directories it
      had; it succeeds exactly when no step is refused. */
  lemma {:induction false} DiskWriteSucceeds(ops: PathOps, s: DiskState, filename: Path, content: Bytes)
    ensures var (r, s') := DiskWrite(ops, s, filename, content);
      var clean := CleanPath(ops, s.baseDir, filename);
      var tmp := clean + TmpSuffix;
      var dir := ops.dir(clean);
      var dirs1 := if NeedsParent(dir) then s.dirs + {dir} else s.dirs;
      (r.Success? <==>
         filename != [] && !Contains(filename, DotDot) && Confined(ops, s.baseDir, clean)
         && (NeedsParent(dir) ==> MkdirAllowed(s.files, s.refused, dir))
         && WriteAllowed(dirs1, s.refused, tmp) && WriteAllowed(dirs1, s.refused, clean))
      && (r.Success? ==>
            clean in s'.files && s'.files[clean] == content && tmp !in s'.files
            && s'.dirs == dirs1 && s'.baseDir == s.baseDir
            && forall k | k != clean && k != tmp :: (k in s'.files <==> k in s.files)
                                                 && (k in s.files ==> s'.files[k] == s.files[k]))
  {
    var clean := CleanPath(ops, s.baseDir, filename);
    TmpIsOther(clean);
  }

  /** When the rename fails the ".tmp" sibling is removed and every other
      file is as it was. */
  lemma {:induction false} RenameFailureCleansUp(ops: PathOps, s: DiskState, filename: Path, content: Bytes)
    requires DiskWrite(ops, s, filename, content).0.Failure?
    requires DiskWrite(ops, s, filename, content).0.error.RenameFailed?
    ensures var (r, s') := DiskWrite(ops, s, filename, content);
      var clean := CleanPath(ops, s.baseDir, filename);
      r.error.path == clean && s'.files == s.files - {clean + TmpSuffix}
  {
  }

  /** Every failure leaves the files as they were, apart from the ".tmp"
      sibling a failed rename removes: earlier writes stay in place. */
  lemma {:induction false} DiskFailureKeepsFiles(ops: PathOps, s: DiskState, filename: Path, content: Bytes)
    requires DiskWrite(ops, s, filename, content).0.Failure?
    ensures var (r, s') := DiskWrite(ops, s, filename, content);
      var tmp := CleanPath(ops, s.baseDir, filename) + TmpSuffix;
      s'.baseDir == s.baseDir
      && forall k | k != tmp :: (k in s'.files <==> k in s.files) && (k in s.files ==> s'.files[k] == s.files[k])
  {
  }

  /** Writing the same name twice leaves the second content. */
  lemma {:induction false} DiskOverwrite(ops: PathOps, s: DiskState, filename: Path, first: Bytes, second: Bytes)
    requires DiskWrite(ops, s, filename, first).0.Success?
    ensures var s1 := DiskWrite(ops, s, filename, first).1;
      var (r, s2) := DiskWrite(ops, s1, filename, second);
      var clean := CleanPath(ops, s.baseDir, filename);
      r.Success? && s2.files[clean] == second
  {
    DiskWriteSucceeds(ops, s, filename, first);
    var s1 := DiskWrite(ops, s, filename, first).1;
    DiskWriteSucceeds(ops, s1, filename, second);
  }

  /** SetBaseDir("") clears the base directory and succeeds; any other
      directory is set, cleaned, exactly when it can be created, and is a
      directory afterwards: the stat and "not a directory" errors never
      arise. */
  lemma {:induction false} SetBaseDirOutcome(ops: PathOps, s: DiskState, dir: Path)
    ensures var (r, s') := DiskSetBaseDir(ops, s, dir);
      (dir == [] ==> r == Success(()) && s' == s.(baseDir := []))
      && (dir != [] ==>
            var clean := ops.clean(dir);
            (r.Success? <==> MkdirAllowed(s.files, s.refused, clean))
            && (r.Success? ==> s'.baseDir == clean && clean in s'.dirs && s'.files == s.files)
            && (r.Failure? ==> r.error == CreateDirFailed(clean) && s' == s))
  {
  }
}
