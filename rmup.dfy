/**
 * The `Scanner` class: the index and the two "deleted" sets, updated in place
 * by `readDirUp` and `getTopPathToDelete`, and the batch entry point
 * `getPathsToDelete`.  Each method is tied to the specification function of
 * the module that describes it.
 */
module RmUp {
  import opened Wrappers
  import opened Paths
  import opened Indexer
  import opened Batch
  import opened Resolver
  import opened SubPaths

  class Scanner {
    const options: Options
    var index: IndexMap
    var deletedFiles: set<Path>
    var deletedDirs: set<Path>

    /** The state the decision walk reads and writes. */
    ghost function State(): Memory
      reads this
    {
      Memory(index, deletedFiles, deletedDirs)
    }

    /** A resolved, non-empty stop path, and an index holding only paths strictly below it. */
    ghost predicate Valid()
      reads this
    {
      |options.stop| > 0 && AllBelowStop(options.stop, index)
    }

    constructor(options: Options)
      requires |options.stop| > 0
      ensures this.options == options
      ensures index == map[] && deletedFiles == {} && deletedDirs == {}
      ensures Valid()
    {
      this.options := options;
      index := map[];
      deletedFiles := {};
      deletedDirs := {};
    }

    /**
     * `readDirUp(path, isInitial)`: reserve the path, index its ancestors, then
     * record its listing.  A `Fail` outcome is the rejection the source throws.
     */
    method ReadDirUp(env: Env, path: Path, isInitial: bool) returns (outcome: Outcome)
      requires Valid()
      modifies this`index
      ensures Valid()
      ensures Indexed(index, outcome) == ReadUp(options, env, old(index), path, isInitial)
      decreases |path|
    {
      ReadUpBelowStop(options, env, index, path, isInitial);
      var isAdded := path in index && (index[path].status == Processing || index[path].status == Ready);
      if isAdded || !BelowStop(options.stop, path) {
        return Pass;
      }
      ParentShorter(options.stop, path);
      index := index[path := Reservation];
      var listing := ReadDir(env, path);
      // The ancestors' outcome is settled but never inspected.
      var _ := ReadDirUp(env, Parent(path), false);
      ghost var up := index;
      assert ReadUp(options, env, old(index), path, isInitial) ==
        if listing.Listed? then Indexed(Populate(up, path, listing.entries, env.isJunk), Pass)
        else if Tolerated(options, listing.code, isInitial) then Indexed(up - {path}, Pass)
        else Indexed(up, Fail(listing.code))
      by {
        ReadUpUnfolds(options, env, old(index), path, isInitial);
      }
      match listing
      case Listed(entries) =>
        var dirs, files := RecordEntries(path, entries, env.isJunk);
        index := index[path := Dir(Ready, dirs, files)];
        outcome := Pass;
      case Failed(code) =>
        var ignoreFileError := options.deleteInitial && isInitial && code == ENOTDIR;
        var ignoreDirError := options.force && isInitial && (code == ENOTDIR || code == ENOENT);
        if !ignoreFileError && !ignoreDirError {
          return Fail(code);
        }
        index := index - {path};
        outcome := Pass;
    }

    /**
     * `entries.value.forEach(...)` in `readDirUp`: give every child directory
     * without a node a placeholder, and collect the child directory names and
     * the non-junk file names of the listing.
     */
    method RecordEntries(path: Path, entries: seq<DirEntry>, isJunk: string -> bool)
      returns (dirs: set<string>, files: set<string>)
      modifies this`index
      ensures index == AddPlaceholders(old(index), path, entries)
      ensures dirs == DirNames(entries) && files == FileNames(entries, isJunk)
    {
      dirs := {};
      files := {};
      for j := 0 to |entries|
        invariant index == AddPlaceholders(old(index), path, entries[..j])
        invariant dirs == DirNames(entries[..j]) && files == FileNames(entries[..j], isJunk)
      {
        var entry := entries[j];
        assert entries[..j + 1] == entries[..j] + [entry];
        PlaceholdersExtend(old(index), path, entries[..j], entry);
        NamesExtend(entries[..j], entry, isJunk);
        if entry.isDirectory {
          var entryPath := Join(path, entry.name);
          if entryPath !in index {
            index := index[entryPath := Placeholder];
          }
          dirs := dirs + {entry.name};
        } else if !isJunk(entry.name) {
          files := files + {entry.name};
        }
      }
      assert entries[..|entries|] == entries;
    }

    /**
     * `getTopPathToDelete(path, isInitial, currentTopPath)`, its tail recursion
     * written as a loop: at each level below stop, delete the file or the
     * directory from memory if it qualifies, and carry the topmost decision.
     */
    method GetTopPathToDelete(path: Path, isInitial: bool, currentTopPath: Option<Entry>) returns (top: Option<Entry>)
      requires Valid()
      modifies this`index, this`deletedFiles, this`deletedDirs
      ensures Valid()
      ensures Walk(State(), top) == TopWalk(options, old(State()), path, isInitial, currentTopPath)
    {
      var p := path;
      var initial := isInitial;
      top := currentTopPath;
      while BelowStop(options.stop, p)
        invariant Valid()
        invariant TopWalk(options, State(), p, initial, top) ==
                  TopWalk(options, old(State()), path, isInitial, currentTopPath)
        decreases |p|
      {
        ParentShorter(options.stop, p);
        ghost var before := State();
        var newTopPath := top;
        var baseName := Basename(p);
        var parentPath := Parent(p);
        var deleteInitial := initial && options.deleteInitial;
        if p !in index && parentPath in index && Basename(baseName) in index[parentPath].files && deleteInitial {
          StepWhenFile(options, before, p, initial);
          deletedFiles := deletedFiles + {p};
          if parentPath in index {
            var d := index[parentPath];
            index := index[parentPath := d.(files := d.files - {baseName})];
          }
          newTopPath := Some(Entry(p, false));
        } else if p in index && index[p].status == Ready
               && (deleteInitial || (|index[p].files| == 0 && |index[p].dirs| == 0)) {
          assert |index[p].files| == 0 <==> index[p].files == {};
          assert |index[p].dirs| == 0 <==> index[p].dirs == {};
          StepWhenDir(options, before, p, initial);
          index := index - {p};
          if parentPath in index {
            var d := index[parentPath];
            index := index[parentPath := d.(dirs := d.dirs - {baseName}, files := d.files - {baseName})];
          }
          deletedDirs := deletedDirs + {p};
          newTopPath := Some(Entry(p, true));
        } else {
          assert p in index && index[p].status == Ready ==>
            (|index[p].files| == 0 <==> index[p].files == {}) && (|index[p].dirs| == 0 <==> index[p].dirs == {});
          StepWhenNeither(options, before, p, initial);
        }
        ghost var d := Step(options, before, p, initial);
        assert State() == d.mem;
        assert newTopPath == if d.chosen.Some? then d.chosen else top;
        WalkUnfolds(options, before, p, initial, top);
        p := parentPath;
        initial := false;
        top := newTopPath;
      }
    }

    /**
     * The synchronous part of `readDirUp(path, isInitial)`: reserve the path
     * and start the parent's call, on up to stop or to a path already
     * reserved.  `started` lists the calls that got past the guard.
     */
    method Reserve(path: Path, isInitial: bool) returns (started: seq<Job>)
      requires Valid()
      modifies this`index
      ensures Valid()
      ensures Plan(index, started) == ReserveChain(options, old(index), path, isInitial)
      decreases |path|
    {
      var isAdded := path in index && (index[path].status == Processing || index[path].status == Ready);
      if isAdded || !BelowStop(options.stop, path) {
        return [];
      }
      ParentShorter(options.stop, path);
      index := index[path := Reservation];
      var up := Reserve(Parent(path), false);
      started := [Job(path, isInitial)] + up;
    }

    /**
     * The continuation of a started call after its `await`, for a listing
     * that succeeded: record the children and mark the node READY.  A failed
     * listing is left to `ReadDirsUp`.
     */
    method ResumeRead(env: Env, job: Job)
      modifies this`index
      ensures index == Resume(env, old(index), job)
    {
      match ReadDir(env, job.path)
      case Listed(entries) =>
        var dirs, files := RecordEntries(job.path, entries, env.isJunk);
        index := index[job.path := Dir(Ready, dirs, files)];
      case Failed(_) =>
    }

    /** The synchronous parts of `paths.map((path) => this.readDirUp(path))`, in input order. */
    method ReserveInputs(paths: seq<Path>) returns (jobs: seq<Job>)
      requires Valid()
      modifies this`index
      ensures Valid()
      ensures Plan(index, jobs) == ReserveAll(options, old(index), paths)
    {
      jobs := [];
      for i := 0 to |paths|
        invariant Valid()
        invariant Plan(index, jobs) == ReserveAll(options, old(index), paths[..i])
      {
        ReserveAllSnoc(options, old(index), paths[..i], paths[i]);
        assert paths[..i + 1] == paths[..i] + [paths[i]];
        var started := Reserve(paths[i], true);
        jobs := jobs + started;
      }
      assert paths[..|paths|] == paths;
    }

    /** The continuations of the started calls, each after the parent call it started: last to first. */
    method ResumeAll(env: Env, jobs: seq<Job>)
      modifies this`index
      ensures index == Settle(env, old(index), jobs)
    {
      var k := |jobs|;
      while k > 0
        invariant 0 <= k <= |jobs|
        invariant index == Settle(env, old(index), jobs[k..])
        decreases k
      {
        k := k - 1;
        assert jobs[k..][1..] == jobs[k + 1..];
        ResumeRead(env, jobs[k]);
      }
    }

    /**
     * The continuations of the calls whose listing failed, in input order:
     * a tolerated failure deletes its node, and the first input whose
     * failure is not tolerated rejects `Promise.all`.  A failure of a call
     * started by another call is swallowed by that call's `allSettled`.
     */
    method FinishFailures(env: Env, jobs: seq<Job>) returns (outcome: Outcome)
      modifies this`index
      ensures index == old(index) - Removed(options, env, jobs)
      ensures outcome == FirstRejection(options, env, jobs)
    {
      outcome := Pass;
      for t := 0 to |jobs|
        invariant index == old(index) - Removed(options, env, jobs[..t])
        invariant outcome == FirstRejection(options, env, jobs[..t])
      {
        var job := jobs[t];
        assert jobs[..t + 1] == jobs[..t] + [job];
        RemovedSnoc(options, env, jobs[..t], job);
        FirstRejectionSnoc(options, env, jobs[..t], job);
        match ReadDir(env, job.path)
        case Listed(_) =>
        case Failed(code) =>
          var ignoreFileError := options.deleteInitial && job.isInitial && code == ENOTDIR;
          var ignoreDirError := options.force && job.isInitial && (code == ENOTDIR || code == ENOENT);
          if !ignoreFileError && !ignoreDirError {
            if job.isInitial && outcome == Pass {
              outcome := Fail(code);
            }
          } else {
            index := index - {job.path};
          }
      }
      assert jobs[..|jobs|] == jobs;
    }

    /**
     * `await Promise.all(paths.map((path) => this.readDirUp(path)))`: every
     * input's call first runs up to its `await`, reserving its chain; then
     * the continuations run, each after the parent call it started, with the
     * failed inputs' continuations last, in input order.  The first input
     * whose failure is not tolerated rejects the batch.
     */
    method ReadDirsUp(env: Env, paths: seq<Path>) returns (outcome: Outcome)
      requires Valid()
      modifies this`index
      ensures Valid()
      ensures Indexed(index, outcome) == ReadAll(options, env, old(index), paths)
    {
      var jobs := ReserveInputs(paths);
      ResumeAll(env, jobs);
      outcome := FinishFailures(env, jobs);
      ReadAllBelowStop(options, env, old(index), paths);
    }

    /**
     * `paths.map((path) => this.getTopPathToDelete(path)).filter((path) => path !== undefined)`:
     * one walk per input, in order, keeping the defined results.
     */
    method TopPathsToDelete(paths: seq<Path>) returns (entries: seq<Entry>)
      requires Valid()
      modifies this`index, this`deletedFiles, this`deletedDirs
      ensures Valid()
      ensures Decided(State(), entries) == DecideAll(options, old(State()), paths)
    {
      entries := [];
      assert paths[0..] == paths;
      for i := 0 to |paths|
        invariant Valid()
        invariant var rest := DecideAll(options, State(), paths[i..]);
          DecideAll(options, old(State()), paths) == Decided(rest.mem, entries + rest.entries)
      {
        ghost var before := State();
        var top := GetTopPathToDelete(paths[i], true, None);
        DecideAllStep(options, old(State()), paths, i, entries, before, Walk(State(), top));
        if top.Some? {
          entries := entries + [top.value];
        } else {
          assert entries + Chosen(top) == entries;
        }
      }
      assert paths[|paths|..] == [];
      assert entries + [] == entries;
    }

    /**
     * `getPathsToDelete(paths)`: index every input, then decide each input in
     * order, then drop the decisions nested under another.
     */
    method GetPathsToDelete(env: Env, paths: seq<Path>) returns (result: Result<seq<Entry>, ErrorCode>)
      requires Valid()
      modifies this`index, this`deletedFiles, this`deletedDirs
      ensures Valid()
      ensures var read := ReadAll(options, env, old(index), paths);
        if read.outcome.Fail? then
          && result == Failure(read.outcome.code)
          && index == read.index && deletedFiles == old(deletedFiles) && deletedDirs == old(deletedDirs)
        else
          var decided := DecideAll(options, Memory(read.index, old(deletedFiles), old(deletedDirs)), paths);
          && State() == decided.mem
          && result == Success(Keep(SortByLength(decided.entries)))
      ensures result.Success? ==>
        && NoNested(result.value)
        && (forall e :: e in result.value ==> BelowStop(options.stop, e.path))
        && (forall e :: e in result.value ==> exists i :: 0 <= i < |paths| && e.path in Chain(options.stop, paths[i]))
    {
      var outcome := ReadDirsUp(env, paths);
      if outcome.Fail? {
        return Failure(outcome.code);
      }
      ghost var indexed := State();
      var pathsToDelete := TopPathsToDelete(paths);
      var filtered := FilterSubPaths(pathsToDelete);
      DecisionsOnChains(options, indexed, paths);
      result := Success(filtered);
    }
  }
}
