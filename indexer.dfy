/**
 * The index that `readDirUp` builds: for every absolute path below stop that
 * the run has met, a directory node with its status, its child directory
 * names and its non-junk file names.  `ReadUp` is the specification of one
 * `readDirUp` call, with the concurrent fork-join flattened: reserve the path,
 * index the ancestors, then process the path's own listing.
 */
module Indexer {
  import opened Paths

  datatype Status = Unprocessed | Processing | Ready

  /** One directory node.  Only the names of the child directories are ever read. */
  datatype Dir = Dir(status: Status, dirs: set<string>, files: set<string>)

  type IndexMap = map<Path, Dir>

  /** The node a parent's listing creates for a child directory it has not met yet. */
  const Placeholder := Dir(Unprocessed, {}, {})

  /** The node `readDirUp` reserves before listing. */
  const Reservation := Dir(Processing, {}, {})

  /** Failure codes of a directory listing. */
  datatype ErrorCode = ENOENT | ENOTDIR | OtherError

  datatype DirEntry = DirEntry(name: string, isDirectory: bool)

  /** What listing a path yields. */
  datatype Listing = Listed(entries: seq<DirEntry>) | Failed(code: ErrorCode)

  /**
   * The external collaborators: the file system as the listing primitive sees
   * it (a path it does not know does not exist) and the junk-file predicate.
   */
  datatype Env = Env(fs: map<Path, Listing>, isJunk: string -> bool)

  /** The scanner's immutable options, after resolution against the working directory. */
  datatype Options = Options(stop: Path, force: bool, deleteInitial: bool)

  datatype Outcome = Pass | Fail(code: ErrorCode)

  /** The index after a call, and whether the call rejected. */
  datatype Indexed = Indexed(index: IndexMap, outcome: Outcome)

  function ReadDir(env: Env, p: Path): Listing
  {
    if p in env.fs then env.fs[p] else Failed(ENOENT)
  }

  /** `isAdded`: a read of `p` is in flight or done. */
  predicate Reserved(idx: IndexMap, p: Path)
  {
    p in idx && (idx[p].status == Processing || idx[p].status == Ready)
  }

  /** Whether a listing failure of the path is swallowed. */
  predicate Tolerated(o: Options, code: ErrorCode, isInitial: bool)
  {
    var ignoreFileError := o.deleteInitial && isInitial && code == ENOTDIR;
    var ignoreDirError := o.force && isInitial && (code == ENOTDIR || code == ENOENT);
    ignoreFileError || ignoreDirError
  }

  /** Every indexed path is strictly below stop. */
  ghost predicate AllBelowStop(stop: Path, idx: IndexMap)
  {
    forall k :: k in idx ==> BelowStop(stop, k)
  }

  function DirNames(es: seq<DirEntry>): set<string>
  {
    set e | e in es && e.isDirectory :: e.name
  }

  function FileNames(es: seq<DirEntry>, isJunk: string -> bool): set<string>
  {
    set e | e in es && !e.isDirectory && !isJunk(e.name) :: e.name
  }

  function ChildPaths(p: Path, es: seq<DirEntry>): set<Path>
  {
    set e | e in es && e.isDirectory :: Join(p, e.name)
  }

  /** The placeholders a successful listing of `p` adds, entry by entry. */
  function AddPlaceholders(idx: IndexMap, p: Path, es: seq<DirEntry>): IndexMap
    decreases |es|
  {
    if es == [] then idx
    else
      var m := AddPlaceholders(idx, p, es[..|es| - 1]);
      var e := es[|es| - 1];
      if e.isDirectory && Join(p, e.name) !in m then m[Join(p, e.name) := Placeholder] else m
  }

  /** The index after `p`'s listing `es` has been processed and `p` marked ready. */
  function Populate(idx: IndexMap, p: Path, es: seq<DirEntry>, isJunk: string -> bool): IndexMap
  {
    AddPlaceholders(idx, p, es)[p := Dir(Ready, DirNames(es), FileNames(es, isJunk))]
  }

  /** One `readDirUp(path, isInitial)` call. */
  function ReadUp(o: Options, env: Env, idx: IndexMap, path: Path, isInitial: bool): Indexed
    requires |o.stop| > 0
    decreases |path|
  {
    if Reserved(idx, path) || !BelowStop(o.stop, path) then Indexed(idx, Pass)
    else
      ParentShorter(o.stop, path);
      var reserved := idx[path := Reservation];
      // The ancestors' outcome is settled but never inspected.
      var up := ReadUp(o, env, reserved, Parent(path), false).index;
      match ReadDir(env, path)
      case Listed(es) => Indexed(Populate(up, path, es, env.isJunk), Pass)
      case Failed(code) =>
        if Tolerated(o, code, isInitial) then Indexed(up - {path}, Pass)
        else Indexed(up, Fail(code))
  }

  // ---------------------------------------------------------------------------
  // Properties

  /** The tolerance policy for listing failures, as a truth table. */
  lemma ToleratedTable(o: Options, code: ErrorCode, isInitial: bool)
    ensures Tolerated(o, code, isInitial) <==>
      isInitial && ((code == ENOTDIR && (o.deleteInitial || o.force)) || (code == ENOENT && o.force))
    ensures !isInitial || code == OtherError ==> !Tolerated(o, code, isInitial)
  {
  }

  /**
   * A successful listing adds exactly one placeholder per child directory that
   * had no node yet, and leaves every existing node alone.
   */
  lemma {:induction false} AddPlaceholdersEffect(idx: IndexMap, p: Path, es: seq<DirEntry>)
    ensures var r := AddPlaceholders(idx, p, es);
      forall k :: (k in r <==> k in idx || k in ChildPaths(p, es))
             && (k in r ==> r[k] == if k in idx then idx[k] else Placeholder)
    decreases |es|
  {
    if es != [] {
      var init := es[..|es| - 1];
      AddPlaceholdersEffect(idx, p, init);
      ChildPathsSnoc(p, es);
    }
  }

  lemma ChildPathsSnoc(p: Path, es: seq<DirEntry>)
    requires es != []
    ensures var e := es[|es| - 1];
      ChildPaths(p, es) == ChildPaths(p, es[..|es| - 1]) + (if e.isDirectory then {Join(p, e.name)} else {})
  {
    assert es == es[..|es| - 1] + [es[|es| - 1]];
  }

  /**
   * `readDirUp(path)` never disturbs a node longer than `path`: an existing one
   * keeps its value and a new one can only be a placeholder.  In particular the
   * recursion into the parent leaves the reserved node of the child untouched.
   */
  lemma {:induction false} ReadUpFrame(o: Options, env: Env, idx: IndexMap, path: Path, isInitial: bool)
    requires |o.stop| > 0
    ensures var r := ReadUp(o, env, idx, path, isInitial).index;
      forall k :: |k| > |path| ==>
        (k in idx ==> k in r && r[k] == idx[k]) && (k in r && k !in idx ==> r[k] == Placeholder)
    decreases |path|
  {
    if !(Reserved(idx, path) || !BelowStop(o.stop, path)) {
      ParentShorter(o.stop, path);
      var reserved := idx[path := Reservation];
      ReadUpFrame(o, env, reserved, Parent(path), false);
      var up := ReadUp(o, env, reserved, Parent(path), false).index;
      match ReadDir(env, path)
      case Listed(es) =>
        AddPlaceholdersEffect(up, path, es);
      case Failed(code) =>
    }
  }

  /**
   * The effect of `readDirUp(path)` on the node of `path` itself and on the
   * outcome: nothing happens for a reserved path or a path not below stop;
   * otherwise a successful listing leaves a READY node holding exactly the
   * child directory names and the non-junk file names, and gives every child
   * directory a node (its old one if it had one, else a placeholder); a
   * tolerated failure removes the node; any other failure rejects and leaves
   * the reservation behind.  Only the path's own listing can reject.
   */
  lemma ReadUpEffect(o: Options, env: Env, idx: IndexMap, path: Path, isInitial: bool)
    requires |o.stop| > 0
    ensures var r := ReadUp(o, env, idx, path, isInitial);
      && (Reserved(idx, path) || !BelowStop(o.stop, path) ==> r == Indexed(idx, Pass))
      && (!Reserved(idx, path) && BelowStop(o.stop, path) && ReadDir(env, path).Listed? ==>
            var es := ReadDir(env, path).entries;
            && r.outcome == Pass
            && path in r.index
            && r.index[path] == Dir(Ready, DirNames(es), FileNames(es, env.isJunk))
            && (forall n :: n in DirNames(es) && n != [] ==>
                  Join(path, n) in r.index &&
                  r.index[Join(path, n)] == if Join(path, n) in idx then idx[Join(path, n)] else Placeholder))
      && (!Reserved(idx, path) && BelowStop(o.stop, path) && ReadDir(env, path).Failed? ==>
            var code := ReadDir(env, path).code;
            if Tolerated(o, code, isInitial) then r.outcome == Pass && path !in r.index
            else r.outcome == Fail(code) && path in r.index && r.index[path] == Reservation)
  {
    if !Reserved(idx, path) && BelowStop(o.stop, path) {
      ParentShorter(o.stop, path);
      var reserved := idx[path := Reservation];
      ReadUpFrame(o, env, reserved, Parent(path), false);
      var up := ReadUp(o, env, reserved, Parent(path), false).index;
      assert path in up && up[path] == Reservation;
      match ReadDir(env, path)
      case Listed(es) =>
        AddPlaceholdersEffect(up, path, es);
        forall n | n in DirNames(es) && n != []
          ensures var c := Join(path, n); c in up || c in ChildPaths(path, es)
          ensures var c := Join(path, n); c in idx ==> c in up && up[c] == idx[c]
          ensures var c := Join(path, n); c in up && c !in idx ==> up[c] == Placeholder
        {
          JoinBelowStop(o.stop, path, n);
          var e :| e in es && e.isDirectory && e.name == n;
          assert Join(path, e.name) in ChildPaths(path, es);
        }
      case Failed(code) =>
    }
  }

  /** Only the path's own listing decides the outcome; failures of ancestors are swallowed. */
  lemma ReadUpRejects(o: Options, env: Env, idx: IndexMap, path: Path, isInitial: bool)
    requires |o.stop| > 0
    ensures ReadUp(o, env, idx, path, isInitial).outcome.Fail? <==>
      !Reserved(idx, path) && BelowStop(o.stop, path) &&
      ReadDir(env, path).Failed? && !Tolerated(o, ReadDir(env, path).code, isInitial)
  {
  }

  /** Memoisation: once a path has been read, reading it again changes nothing. */
  lemma ReadUpMemoised(o: Options, env: Env, idx: IndexMap, path: Path, isInitial: bool, again: bool)
    requires |o.stop| > 0
    ensures var r := ReadUp(o, env, idx, path, isInitial).index;
      path in r ==> ReadUp(o, env, r, path, again) == Indexed(r, Pass)
  {
    ReadUpEffect(o, env, idx, path, isInitial);
  }

  /** A missing initial path without `force` rejects the whole read with ENOENT. */
  lemma MissingWithoutForceRejects(o: Options, env: Env, idx: IndexMap, path: Path)
    requires |o.stop| > 0 && !o.force
    requires BelowStop(o.stop, path) && path !in idx && path !in env.fs
    ensures ReadUp(o, env, idx, path, true).outcome == Fail(ENOENT)
  {
  }

  /** The index only ever holds paths strictly below stop; the stop path is never indexed. */
  lemma {:induction false} ReadUpBelowStop(o: Options, env: Env, idx: IndexMap, path: Path, isInitial: bool)
    requires |o.stop| > 0 && AllBelowStop(o.stop, idx)
    ensures AllBelowStop(o.stop, ReadUp(o, env, idx, path, isInitial).index)
    ensures o.stop !in ReadUp(o, env, idx, path, isInitial).index
    decreases |path|
  {
    if !(Reserved(idx, path) || !BelowStop(o.stop, path)) {
      ParentShorter(o.stop, path);
      var reserved := idx[path := Reservation];
      ReadUpBelowStop(o, env, reserved, Parent(path), false);
      var up := ReadUp(o, env, reserved, Parent(path), false).index;
      match ReadDir(env, path)
      case Listed(es) =>
        AddPlaceholdersEffect(up, path, es);
        forall n | n in DirNames(es) ensures BelowStop(o.stop, Join(path, n)) {
          JoinBelowStop(o.stop, path, n);
        }
      case Failed(code) =>
    }
  }

  /** A non-initial read (an ancestor) never removes a node, whatever its listing does. */
  lemma {:induction false} AncestorReadKeepsNodes(o: Options, env: Env, idx: IndexMap, path: Path)
    requires |o.stop| > 0
    ensures idx.Keys <= ReadUp(o, env, idx, path, false).index.Keys
    decreases |path|
  {
    if !(Reserved(idx, path) || !BelowStop(o.stop, path)) {
      ParentShorter(o.stop, path);
      var reserved := idx[path := Reservation];
      AncestorReadKeepsNodes(o, env, reserved, Parent(path));
      var up := ReadUp(o, env, reserved, Parent(path), false).index;
      match ReadDir(env, path)
      case Listed(es) =>
        AddPlaceholdersEffect(up, path, es);
      case Failed(code) =>
    }
  }

  /** Processing one more listing entry extends the name sets by at most that entry's name. */
  lemma NamesExtend(es: seq<DirEntry>, e: DirEntry, isJunk: string -> bool)
    ensures DirNames(es + [e]) == DirNames(es) + (if e.isDirectory then {e.name} else {})
    ensures FileNames(es + [e], isJunk) ==
      FileNames(es, isJunk) + (if !e.isDirectory && !isJunk(e.name) then {e.name} else {})
  {
    assert forall x :: x in es + [e] <==> x in es || x == e;
  }

  /** Processing one more listing entry adds at most that entry's placeholder. */
  lemma PlaceholdersExtend(idx: IndexMap, p: Path, es: seq<DirEntry>, e: DirEntry)
    ensures var m := AddPlaceholders(idx, p, es);
      AddPlaceholders(idx, p, es + [e]) ==
        if e.isDirectory && Join(p, e.name) !in m then m[Join(p, e.name) := Placeholder] else m
  {
    assert (es + [e])[..|es + [e]| - 1] == es;
  }

  /** A listing whose child directories all have nodes adds no placeholder. */
  /** One level whose listing succeeds and names only children the ancestors' read already indexed. */
  lemma ReadUpListedLevel(o: Options, env: Env, idx: IndexMap, path: Path, isInitial: bool,
                          parent: Path, es: seq<DirEntry>, up: IndexMap)
    requires |o.stop| > 0 && !Reserved(idx, path) && BelowStop(o.stop, path) && Parent(path) == parent
    requires ReadUp(o, env, idx[path := Reservation], parent, false).index == up
    requires ReadDir(env, path) == Listed(es)
    requires forall e :: e in es && e.isDirectory ==> Join(path, e.name) in up
    ensures ReadUp(o, env, idx, path, isInitial) ==
      Indexed(up[path := Dir(Ready, DirNames(es), FileNames(es, env.isJunk))], Pass)
  {
    ReadUpUnfolds(o, env, idx, path, isInitial);
    PopulateKnownChildren(up, path, es, env.isJunk);
  }

  /** One level whose listing fails. */
  lemma ReadUpFailedLevel(o: Options, env: Env, idx: IndexMap, path: Path, isInitial: bool,
                          parent: Path, code: ErrorCode, up: IndexMap)
    requires |o.stop| > 0 && !Reserved(idx, path) && BelowStop(o.stop, path) && Parent(path) == parent
    requires ReadUp(o, env, idx[path := Reservation], parent, false).index == up
    requires ReadDir(env, path) == Failed(code)
    ensures ReadUp(o, env, idx, path, isInitial) ==
      if Tolerated(o, code, isInitial) then Indexed(up - {path}, Pass) else Indexed(up, Fail(code))
  {
    ReadUpUnfolds(o, env, idx, path, isInitial);
  }

  lemma PopulateKnownChildren(idx: IndexMap, p: Path, es: seq<DirEntry>, isJunk: string -> bool)
    requires forall e :: e in es && e.isDirectory ==> Join(p, e.name) in idx
    ensures Populate(idx, p, es, isJunk) == idx[p := Dir(Ready, DirNames(es), FileNames(es, isJunk))]
  {
    AddPlaceholdersEffect(idx, p, es);
    assert AddPlaceholders(idx, p, es) == idx;
  }

  /** A read of an unreserved path below stop: reserve, read the ancestors, then act on the own listing. */
  lemma ReadUpUnfolds(o: Options, env: Env, idx: IndexMap, path: Path, isInitial: bool)
    requires |o.stop| > 0 && !Reserved(idx, path) && BelowStop(o.stop, path)
    ensures var up := ReadUp(o, env, idx[path := Reservation], Parent(path), false).index;
      var listing := ReadDir(env, path);
      ReadUp(o, env, idx, path, isInitial) ==
        if listing.Listed? then Indexed(Populate(up, path, listing.entries, env.isJunk), Pass)
        else if Tolerated(o, listing.code, isInitial) then Indexed(up - {path}, Pass)
        else Indexed(up, Fail(listing.code))
  {
  }
}
