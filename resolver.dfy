/**
 * The decision walk of `getTopPathToDelete`: from a path upward to the stop
 * boundary, delete from the index every node that qualifies and carry the
 * best (topmost) decision found so far.
 */
module Resolver {
  import opened Wrappers
  import opened Paths
  import opened Indexer

  /** The scanner state the walk changes: the index and the two "deleted" sets. */
  datatype Memory = Memory(index: IndexMap, deletedFiles: set<Path>, deletedDirs: set<Path>)

  /** The state after deciding one level, and what was chosen at that level. */
  datatype Decision = Decision(mem: Memory, chosen: Option<Entry>)

  /** The state after a whole walk, and the walk's result. */
  datatype Walk = Walk(mem: Memory, top: Option<Entry>)

  /** The state after a batch of walks, and the non-empty results in input order. */
  datatype Decided = Decided(mem: Memory, entries: seq<Entry>)

  /** A file qualifies: no node, the parent lists it as a file, and it is initial with `deleteInitial`. */
  predicate FileQualifies(o: Options, idx: IndexMap, q: Path, isInitial: bool)
  {
    var parentPath := Parent(q);
    q !in idx && parentPath in idx && Basename(Basename(q)) in idx[parentPath].files
    && isInitial && o.deleteInitial
  }

  /** A directory qualifies: READY, and initial with `deleteInitial` or without files and subdirectories. */
  predicate DirQualifies(o: Options, idx: IndexMap, q: Path, isInitial: bool)
  {
    q in idx && idx[q].status == Ready
    && ((isInitial && o.deleteInitial) || (idx[q].files == {} && idx[q].dirs == {}))
  }

  /**
   * A listed directory qualifies as a non-initial level exactly when every
   * entry of its listing is a junk file: the emptiness test the decision is
   * meant to make.
   */
  lemma DirQualifiesIffEmpty(o: Options, idx: IndexMap, q: Path, es: seq<DirEntry>, isJunk: string -> bool)
    requires q in idx && idx[q] == Dir(Ready, DirNames(es), FileNames(es, isJunk))
    ensures DirQualifies(o, idx, q, false) <==> forall e :: e in es ==> !e.isDirectory && isJunk(e.name)
  {
    forall e | e in es && e.isDirectory ensures e.name in DirNames(es) {}
    forall e | e in es && !e.isDirectory && !isJunk(e.name) ensures e.name in FileNames(es, isJunk) {}
  }

  /**
   * The emptiness test as the source evaluates it.  The child directories
   * are the keys of a plain object, and assigning the key `__proto__` sets
   * the object's prototype instead of adding an own key, so `Object.keys`
   * never counts a child directory of that name.
   */
  predicate DirQualifiesAsWritten(o: Options, idx: IndexMap, q: Path, isInitial: bool)
  {
    q in idx && idx[q].status == Ready
    && ((isInitial && o.deleteInitial) || (idx[q].files == {} && idx[q].dirs - {"__proto__"} == {}))
  }

  /**
   * A directory whose only entry is a child directory named `__proto__`
   * passes the source's emptiness test, although its listing is not empty.
   */
  lemma ProtoChildLooksEmpty(o: Options)
    ensures var es := [DirEntry("__proto__", true)];
            var idx := map["/t/a" := Dir(Ready, DirNames(es), FileNames(es, n => false))];
            DirQualifiesAsWritten(o, idx, "/t/a", false) && !DirQualifies(o, idx, "/t/a", false)
  {
    var es := [DirEntry("__proto__", true)];
    assert DirNames(es) == {"__proto__"} by {
      assert es[0] in es;
    }
    assert FileNames(es, n => false) == {};
  }

  /** The parent node without the name `b` among its directories and files, if there is a parent node. */
  function Unlink(idx: IndexMap, parentPath: Path, b: string, fromDirs: bool): IndexMap
  {
    if parentPath in idx then
      var d := idx[parentPath];
      idx[parentPath := Dir(d.status, if fromDirs then d.dirs - {b} else d.dirs, d.files - {b})]
    else idx
  }

  /** The decision at one level of the walk. */
  function Step(o: Options, m: Memory, q: Path, isInitial: bool): Decision
  {
    var baseName := Basename(q);
    var parentPath := Parent(q);
    if FileQualifies(o, m.index, q, isInitial) then
      Decision(Memory(Unlink(m.index, parentPath, baseName, false), m.deletedFiles + {q}, m.deletedDirs),
               Some(Entry(q, false)))
    else if DirQualifies(o, m.index, q, isInitial) then
      Decision(Memory(Unlink(m.index - {q}, parentPath, baseName, true), m.deletedFiles, m.deletedDirs + {q}),
               Some(Entry(q, true)))
    else Decision(m, None)
  }

  /** `getTopPathToDelete(path, isInitial, currentTopPath)`. */
  function TopWalk(o: Options, m: Memory, path: Path, isInitial: bool, currentTopPath: Option<Entry>): Walk
    requires |o.stop| > 0
    decreases |path|
  {
    if !BelowStop(o.stop, path) then Walk(m, currentTopPath)
    else
      ParentShorter(o.stop, path);
      var d := Step(o, m, path, isInitial);
      var newTopPath := if d.chosen.Some? then d.chosen else currentTopPath;
      TopWalk(o, d.mem, Parent(path), false, newTopPath)
  }

  /** Every decision the walk records, bottom first. */
  function Recorded(o: Options, m: Memory, path: Path, isInitial: bool): seq<Entry>
    requires |o.stop| > 0
    decreases |path|
  {
    if !BelowStop(o.stop, path) then []
    else
      ParentShorter(o.stop, path);
      var d := Step(o, m, path, isInitial);
      Chosen(d.chosen) + Recorded(o, d.mem, Parent(path), false)
  }

  /** `getPathsToDelete`'s decision phase: one walk per input, in input order, keeping the defined results. */
  function DecideAll(o: Options, m: Memory, paths: seq<Path>): Decided
    requires |o.stop| > 0
    decreases |paths|
  {
    if paths == [] then Decided(m, [])
    else
      var w := TopWalk(o, m, paths[0], true, None);
      var rest := DecideAll(o, w.mem, paths[1..]);
      Decided(rest.mem, (if w.top.Some? then [w.top.value] else []) + rest.entries)
  }

  function DirPaths(es: seq<Entry>): set<Path>
  {
    set e | e in es && e.isDirectory :: e.path
  }

  function FilePaths(es: seq<Entry>): set<Path>
  {
    set e | e in es && !e.isDirectory :: e.path
  }

  // ---------------------------------------------------------------------------
  // Properties

  /**
   * One level chooses a file exactly when the file qualifies, otherwise a
   * directory exactly when the directory qualifies, otherwise nothing, and
   * then nothing changes.
   */
  lemma StepChoice(o: Options, m: Memory, q: Path, isInitial: bool)
    ensures var d := Step(o, m, q, isInitial);
      && (d.chosen == Some(Entry(q, false)) <==> FileQualifies(o, m.index, q, isInitial))
      && (d.chosen == Some(Entry(q, true)) <==>
            !FileQualifies(o, m.index, q, isInitial) && DirQualifies(o, m.index, q, isInitial))
      && (d.chosen == None <==>
            !FileQualifies(o, m.index, q, isInitial) && !DirQualifies(o, m.index, q, isInitial))
      && (d.chosen == None ==> d.mem == m)
  {
  }

  /**
   * Choosing a file: only the parent's files lose its name, the node set is
   * unchanged and the path joins `deletedFiles`.
   */
  lemma StepFileEffect(o: Options, m: Memory, q: Path, isInitial: bool)
    requires FileQualifies(o, m.index, q, isInitial)
    ensures var d := Step(o, m, q, isInitial);
      var p := Parent(q);
      && d.mem.deletedFiles == m.deletedFiles + {q} && d.mem.deletedDirs == m.deletedDirs
      && d.mem.index.Keys == m.index.Keys
      && d.mem.index[p] == m.index[p].(files := m.index[p].files - {Basename(q)})
      && (forall k :: k in m.index && k != p ==> d.mem.index[k] == m.index[k])
  {
  }

  /**
   * Choosing a directory: its node goes, the parent's directories and files
   * lose its name, no other node changes and the path joins `deletedDirs`.
   */
  lemma StepDirEffect(o: Options, m: Memory, q: Path, isInitial: bool)
    requires !FileQualifies(o, m.index, q, isInitial) && DirQualifies(o, m.index, q, isInitial)
    ensures var d := Step(o, m, q, isInitial);
      var p := Parent(q);
      var b := Basename(q);
      && d.mem.deletedDirs == m.deletedDirs + {q} && d.mem.deletedFiles == m.deletedFiles
      && d.mem.index.Keys == m.index.Keys - {q}
      && (p in d.mem.index ==>
            d.mem.index[p] == m.index[p].(dirs := m.index[p].dirs - {b}, files := m.index[p].files - {b}))
      && (forall k :: k in m.index && k != q && k != p ==> d.mem.index[k] == m.index[k])
  {
  }

  /** The level's file is chosen: the parent's files lose the name. */
  lemma StepWhenFile(o: Options, m: Memory, q: Path, isInitial: bool)
    requires FileQualifies(o, m.index, q, isInitial)
    ensures Step(o, m, q, isInitial) ==
      Decision(Memory(Unlink(m.index, Parent(q), Basename(q), false), m.deletedFiles + {q}, m.deletedDirs),
               Some(Entry(q, false)))
  {
  }

  /** The level's directory is chosen: its node goes and the parent loses the name. */
  lemma StepWhenDir(o: Options, m: Memory, q: Path, isInitial: bool)
    requires !FileQualifies(o, m.index, q, isInitial) && DirQualifies(o, m.index, q, isInitial)
    ensures Step(o, m, q, isInitial) ==
      Decision(Memory(Unlink(m.index - {q}, Parent(q), Basename(q), true), m.deletedFiles, m.deletedDirs + {q}),
               Some(Entry(q, true)))
  {
  }

  /** Nothing qualifies at this level: nothing changes. */
  /** `StepWhenDir`, with the parent and the basename given. */
  lemma StepDirAt(o: Options, m: Memory, q: Path, isInitial: bool, parent: Path, name: string)
    requires Parent(q) == parent && Basename(q) == name
    requires q in m.index && DirQualifies(o, m.index, q, isInitial)
    ensures Step(o, m, q, isInitial) ==
      Decision(Memory(Unlink(m.index - {q}, parent, name, true), m.deletedFiles, m.deletedDirs + {q}),
               Some(Entry(q, true)))
  {
    StepWhenDir(o, m, q, isInitial);
  }

  lemma StepWhenNeither(o: Options, m: Memory, q: Path, isInitial: bool)
    requires !FileQualifies(o, m.index, q, isInitial) && !DirQualifies(o, m.index, q, isInitial)
    ensures Step(o, m, q, isInitial) == Decision(m, None)
  {
  }

  /** One walk of a batch. */
  lemma DecideAllUnfolds(o: Options, m: Memory, paths: seq<Path>, i: int)
    requires |o.stop| > 0 && 0 <= i < |paths|
    ensures var w := TopWalk(o, m, paths[i], true, None);
      var rest := DecideAll(o, w.mem, paths[i + 1..]);
      DecideAll(o, m, paths[i..]) == Decided(rest.mem, Chosen(w.top) + rest.entries)
  {
    assert paths[i..][1..] == paths[i + 1..];
    var w := TopWalk(o, m, paths[i], true, None);
    assert (if w.top.Some? then [w.top.value] else []) == Chosen(w.top);
  }

  /** The batch, with its first walk split off. */
  lemma DecideAllCons(o: Options, m: Memory, p: Path, rest: seq<Path>, d: Decided)
    requires |o.stop| > 0 && DecideAll(o, TopWalk(o, m, p, true, None).mem, rest) == d
    ensures DecideAll(o, m, [p] + rest) == Decided(d.mem, Chosen(TopWalk(o, m, p, true, None).top) + d.entries)
  {
    DecideAllUnfolds(o, m, [p] + rest, 0);
    assert ([p] + rest)[0..] == [p] + rest && ([p] + rest)[1..] == rest;
  }

  /** The batch after `i` walks: the decisions so far followed by what the remaining walks decide. */
  lemma DecideAllStep(o: Options, m0: Memory, paths: seq<Path>, i: int, acc: seq<Entry>, m: Memory, w: Walk)
    requires |o.stop| > 0 && 0 <= i < |paths|
    requires var rest := DecideAll(o, m, paths[i..]);
      DecideAll(o, m0, paths) == Decided(rest.mem, acc + rest.entries)
    requires w == TopWalk(o, m, paths[i], true, None)
    ensures var rest := DecideAll(o, w.mem, paths[i + 1..]);
      DecideAll(o, m0, paths) == Decided(rest.mem, (acc + Chosen(w.top)) + rest.entries)
  {
    var rest := DecideAll(o, w.mem, paths[i + 1..]);
    assert DecideAll(o, m, paths[i..]) == Decided(rest.mem, Chosen(w.top) + rest.entries) by {
      DecideAllUnfolds(o, m, paths, i);
    }
    assert acc + (Chosen(w.top) + rest.entries) == (acc + Chosen(w.top)) + rest.entries;
  }

  /** The decision of one level as a sequence of zero or one entries. */
  function Chosen(c: Option<Entry>): seq<Entry>
  {
    match c
    case Some(e) => [e]
    case None => []
  }

  /** What one level contributes to the deleted sets and takes from the node set. */
  lemma StepBookkeeping(o: Options, m: Memory, q: Path, isInitial: bool)
    ensures var d := Step(o, m, q, isInitial);
      && d.mem.deletedDirs == m.deletedDirs + DirPaths(Chosen(d.chosen))
      && d.mem.deletedFiles == m.deletedFiles + FilePaths(Chosen(d.chosen))
      && DirPaths(Chosen(d.chosen)) <= m.index.Keys
      && d.mem.index.Keys == m.index.Keys - DirPaths(Chosen(d.chosen))
  {
    var d := Step(o, m, q, isInitial);
    if FileQualifies(o, m.index, q, isInitial) {
      FileBookkeeping(o, m, q, isInitial);
      assert Chosen(d.chosen) == [Entry(q, false)];
    } else if DirQualifies(o, m.index, q, isInitial) {
      DirBookkeeping(o, m, q, isInitial);
      assert Chosen(d.chosen) == [Entry(q, true)];
    } else {
      assert d == Decision(m, None);
      assert Chosen(d.chosen) == [];
      assert DirPaths([]) == {} && FilePaths([]) == {};
    }
  }

  lemma FileBookkeeping(o: Options, m: Memory, q: Path, isInitial: bool)
    requires FileQualifies(o, m.index, q, isInitial)
    ensures var d := Step(o, m, q, isInitial);
      && d.chosen == Some(Entry(q, false))
      && d.mem.deletedDirs == m.deletedDirs && DirPaths([Entry(q, false)]) == {}
      && d.mem.deletedFiles == m.deletedFiles + FilePaths([Entry(q, false)])
      && d.mem.index.Keys == m.index.Keys
  {
    StepFileEffect(o, m, q, isInitial);
    assert DirPaths([Entry(q, false)]) == {} by {
      forall e | e in [Entry(q, false)] ensures !e.isDirectory { }
    }
    assert FilePaths([Entry(q, false)]) == {q};
  }

  lemma DirBookkeeping(o: Options, m: Memory, q: Path, isInitial: bool)
    requires !FileQualifies(o, m.index, q, isInitial) && DirQualifies(o, m.index, q, isInitial)
    ensures var d := Step(o, m, q, isInitial);
      && d.chosen == Some(Entry(q, true))
      && d.mem.deletedDirs == m.deletedDirs + DirPaths([Entry(q, true)])
      && d.mem.deletedFiles == m.deletedFiles && FilePaths([Entry(q, true)]) == {}
      && q in m.index && DirPaths([Entry(q, true)]) == {q}
      && d.mem.index.Keys == m.index.Keys - {q}
  {
    StepDirEffect(o, m, q, isInitial);
    assert DirPaths([Entry(q, true)]) == {q};
    assert FilePaths([Entry(q, true)]) == {} by {
      forall e | e in [Entry(q, true)] ensures e.isDirectory { }
    }
  }

  lemma DecisionPathsConcat(a: seq<Entry>, b: seq<Entry>)
    ensures DirPaths(a + b) == DirPaths(a) + DirPaths(b)
    ensures FilePaths(a + b) == FilePaths(a) + FilePaths(b)
  {
  }

  /** A non-initial directory is only deleted when it is READY and has no files and no subdirectories. */
  lemma NonInitialNeedsEmpty(o: Options, m: Memory, q: Path)
    ensures var d := Step(o, m, q, false);
      d.chosen.Some? ==>
        d.chosen.value.isDirectory && q in m.index && m.index[q] == Dir(Ready, {}, {})
  {
  }

  /**
   * The walk's result is the last (topmost) recorded decision, or the incoming
   * `currentTopPath` when nothing was recorded.
   */
  lemma {:induction false} TopIsLastRecorded(o: Options, m: Memory, path: Path, isInitial: bool, current: Option<Entry>)
    requires |o.stop| > 0
    ensures var rec := Recorded(o, m, path, isInitial);
      TopWalk(o, m, path, isInitial, current).top == if rec == [] then current else Some(rec[|rec| - 1])
    decreases |path|
  {
    if BelowStop(o.stop, path) {
      ParentShorter(o.stop, path);
      var d := Step(o, m, path, isInitial);
      var newTop := if d.chosen.Some? then d.chosen else current;
      var rest := Recorded(o, d.mem, Parent(path), false);
      WalkUnfolds(o, m, path, isInitial, current);
      TopIsLastRecorded(o, d.mem, Parent(path), false, newTop);
      LastOfConcat(Chosen(d.chosen), rest);
    }
  }

  /** One level of the walk and of its record. */
  /** `WalkUnfolds`, with the parent and the step's decision given. */
  lemma WalkOn(o: Options, m: Memory, path: Path, isInitial: bool, current: Option<Entry>, parent: Path, d: Decision)
    requires |o.stop| > 0 && BelowStop(o.stop, path) && Parent(path) == parent
    requires Step(o, m, path, isInitial) == d
    ensures TopWalk(o, m, path, isInitial, current) ==
      TopWalk(o, d.mem, parent, false, if d.chosen.Some? then d.chosen else current)
  {
    WalkUnfolds(o, m, path, isInitial, current);
  }

  lemma WalkUnfolds(o: Options, m: Memory, path: Path, isInitial: bool, current: Option<Entry>)
    requires |o.stop| > 0 && BelowStop(o.stop, path)
    ensures var d := Step(o, m, path, isInitial);
      && TopWalk(o, m, path, isInitial, current) ==
           TopWalk(o, d.mem, Parent(path), false, if d.chosen.Some? then d.chosen else current)
      && Recorded(o, m, path, isInitial) == Chosen(d.chosen) + Recorded(o, d.mem, Parent(path), false)
  {
  }

  lemma LastOfConcat(head: seq<Entry>, rest: seq<Entry>)
    requires |head| <= 1
    ensures var rec := head + rest;
      rec == [] <==> head == [] && rest == []
    ensures var rec := head + rest;
      rec != [] ==> rec[|rec| - 1] == if rest == [] then head[0] else rest[|rest| - 1]
  {
  }

  /**
   * Every recorded decision lies on the walk's chain of ancestors-or-self below
   * stop, and they are recorded strictly upward, so the last one is the topmost.
   */
  lemma {:induction false} RecordedAlongChain(o: Options, m: Memory, path: Path, isInitial: bool)
    requires |o.stop| > 0
    ensures var rec := Recorded(o, m, path, isInitial);
      && (forall e :: e in rec ==> e.path in Chain(o.stop, path) && |e.path| <= |path|)
      && (forall i, j :: 0 <= i < j < |rec| ==> |rec[j].path| < |rec[i].path|)
    decreases |path|
  {
    if BelowStop(o.stop, path) {
      ParentShorter(o.stop, path);
      var d := Step(o, m, path, isInitial);
      WalkUnfolds(o, m, path, isInitial, None);
      RecordedAlongChain(o, d.mem, Parent(path), false);
      var rest := Recorded(o, d.mem, Parent(path), false);
      var head := Chosen(d.chosen);
      assert d.chosen.Some? ==> d.chosen.value.path == path;
      var rec := head + rest;
      assert Chain(o.stop, path) == [path] + Chain(o.stop, Parent(path));
      forall i, j | 0 <= i < j < |rec| ensures |rec[j].path| < |rec[i].path| {
        if head != [] && i == 0 {
          assert rec[j] in rest;
        }
      }
    }
  }

  /** The walk adds exactly its recorded decisions to `deletedDirs` and `deletedFiles`. */
  lemma WalkDeletes(o: Options, m: Memory, path: Path, isInitial: bool, current: Option<Entry>)
    requires |o.stop| > 0
    ensures var w := TopWalk(o, m, path, isInitial, current);
      var rec := Recorded(o, m, path, isInitial);
      && w.mem.deletedDirs == m.deletedDirs + DirPaths(rec)
      && w.mem.deletedFiles == m.deletedFiles + FilePaths(rec)
  {
    WalkDeletesDirs(o, m, path, isInitial, current);
    WalkDeletesFiles(o, m, path, isInitial, current);
  }

  lemma {:induction false} WalkDeletesDirs(o: Options, m: Memory, path: Path, isInitial: bool, current: Option<Entry>)
    requires |o.stop| > 0
    ensures TopWalk(o, m, path, isInitial, current).mem.deletedDirs
            == m.deletedDirs + DirPaths(Recorded(o, m, path, isInitial))
    decreases |path|
  {
    if BelowStop(o.stop, path) {
      ParentShorter(o.stop, path);
      var d := Step(o, m, path, isInitial);
      var newTop := if d.chosen.Some? then d.chosen else current;
      WalkUnfolds(o, m, path, isInitial, current);
      WalkDeletesDirs(o, d.mem, Parent(path), false, newTop);
      StepBookkeeping(o, m, path, isInitial);
      var rest := Recorded(o, d.mem, Parent(path), false);
      DecisionPathsConcat(Chosen(d.chosen), rest);
      UnionRegroups(m.deletedDirs, DirPaths(Chosen(d.chosen)), DirPaths(rest));
    } else {
      assert DirPaths([]) == {};
    }
  }

  lemma {:induction false} WalkDeletesFiles(o: Options, m: Memory, path: Path, isInitial: bool, current: Option<Entry>)
    requires |o.stop| > 0
    ensures TopWalk(o, m, path, isInitial, current).mem.deletedFiles
            == m.deletedFiles + FilePaths(Recorded(o, m, path, isInitial))
    decreases |path|
  {
    if BelowStop(o.stop, path) {
      ParentShorter(o.stop, path);
      var d := Step(o, m, path, isInitial);
      var newTop := if d.chosen.Some? then d.chosen else current;
      WalkUnfolds(o, m, path, isInitial, current);
      WalkDeletesFiles(o, d.mem, Parent(path), false, newTop);
      StepBookkeeping(o, m, path, isInitial);
      var rest := Recorded(o, d.mem, Parent(path), false);
      DecisionPathsConcat(Chosen(d.chosen), rest);
      UnionRegroups(m.deletedFiles, FilePaths(Chosen(d.chosen)), FilePaths(rest));
    } else {
      assert FilePaths([]) == {};
    }
  }

  lemma UnionRegroups(a: set<Path>, b: set<Path>, c: set<Path>)
    ensures (a + b) + c == a + (b + c)
  {
  }

  /** The walk removes from the index exactly the directories it records, and adds nothing. */
  lemma {:induction false} WalkRemovesRecordedDirs(o: Options, m: Memory, path: Path, isInitial: bool, current: Option<Entry>)
    requires |o.stop| > 0
    ensures var w := TopWalk(o, m, path, isInitial, current);
      var rec := Recorded(o, m, path, isInitial);
      DirPaths(rec) <= m.index.Keys && w.mem.index.Keys == m.index.Keys - DirPaths(rec)
    decreases |path|
  {
    if BelowStop(o.stop, path) {
      ParentShorter(o.stop, path);
      var d := Step(o, m, path, isInitial);
      StepBookkeeping(o, m, path, isInitial);
      var newTop := if d.chosen.Some? then d.chosen else current;
      WalkUnfolds(o, m, path, isInitial, current);
      WalkRemovesRecordedDirs(o, d.mem, Parent(path), false, newTop);
      var rest := Recorded(o, d.mem, Parent(path), false);
      var head := Chosen(d.chosen);
      DecisionPathsConcat(head, rest);
    }
  }

  /**
   * The result of a walk started without a decision is nothing, or a path on
   * the walk's chain: strictly below stop, never the stop path itself.
   */
  lemma WalkResultOnChain(o: Options, m: Memory, path: Path)
    requires |o.stop| > 0
    ensures var w := TopWalk(o, m, path, true, None);
      w.top.Some? ==> w.top.value.path in Chain(o.stop, path) && BelowStop(o.stop, w.top.value.path)
  {
    TopIsLastRecorded(o, m, path, true, None);
    RecordedAlongChain(o, m, path, true);
  }

  /** Every decision of a batch lies on the chain of one of its inputs. */
  lemma {:induction false} DecisionsOnChains(o: Options, m: Memory, paths: seq<Path>)
    requires |o.stop| > 0
    ensures forall e :: e in DecideAll(o, m, paths).entries ==>
      BelowStop(o.stop, e.path) && exists i :: 0 <= i < |paths| && e.path in Chain(o.stop, paths[i])
    decreases |paths|
  {
    if paths != [] {
      var w := TopWalk(o, m, paths[0], true, None);
      WalkResultOnChain(o, m, paths[0]);
      DecisionsOnChains(o, w.mem, paths[1..]);
      forall e | e in DecideAll(o, m, paths).entries
        ensures exists i :: 0 <= i < |paths| && e.path in Chain(o.stop, paths[i])
      {
        if e in DecideAll(o, w.mem, paths[1..]).entries {
          var i :| 0 <= i < |paths[1..]| && e.path in Chain(o.stop, paths[1..][i]);
          assert paths[1..][i] == paths[i + 1];
        } else {
          assert e.path in Chain(o.stop, paths[0]);
        }
      }
    }
  }
}
