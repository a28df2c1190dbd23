/**
 * The scanner on a concrete tree: `/t` is the stop directory and holds
 * `c1/c2/c3x/c4x` and `c1/c2/c3y/c4y`, all directories, with no files.
 */
module Scenarios {
  import opened Wrappers
  import opened Paths
  import opened Indexer
  import opened Batch
  import opened Resolver
  import opened SubPaths
  import opened RmUp

  const T: Path := "/t"
  const C1: Path := "/t/c1"
  const C2: Path := "/t/c1/c2"
  const C3x: Path := "/t/c1/c2/c3x"
  const C4x: Path := "/t/c1/c2/c3x/c4x"
  const C3y: Path := "/t/c1/c2/c3y"
  const C4y: Path := "/t/c1/c2/c3y/c4y"
  /** A path that does not exist. */
  const Missing: Path := "/t/c1/none"

  /** The paths of the tree are pairwise distinct. */
  lemma Distinct()
    ensures T != C1 && T != C2 && T != C3x && T != C4x
    ensures T != C3y && T != C4y && C1 != C2 && C1 != C3x
    ensures C1 != C4x && C1 != C3y && C1 != C4y && C2 != C3x
    ensures C2 != C4x && C2 != C3y && C2 != C4y && C3x != C4x
    ensures C3x != C3y && C3x != C4y && C4x != C3y && C4x != C4y
    ensures C3y != C4y
  {
  }

  /** The options of the test: stop at `/t`, neither `force` nor `deleteInitial`. */
  const Opts := Options(T, false, false)

  /** The listings of the tree; `.DS_Store` is junk. */
  const Tree := Env(
    map[C1 := Listed([DirEntry("c2", true)]),
        C2 := Listed([DirEntry("c3x", true), DirEntry("c3y", true)]),
        C3x := Listed([DirEntry("c4x", true)]),
        C4x := Listed([]),
        C3y := Listed([DirEntry("c4y", true)]),
        C4y := Listed([])],
    (n: string) => n == ".DS_Store")

  const Inputs: seq<Path> := [C4x, C4y]

  lemma OneDir(a: string, isJunk: string -> bool)
    ensures DirNames([DirEntry(a, true)]) == {a} && FileNames([DirEntry(a, true)], isJunk) == {}
  {
    NamesExtend([], DirEntry(a, true), isJunk);
    assert DirNames([]) == {} && FileNames([], isJunk) == {};
    assert [] + [DirEntry(a, true)] == [DirEntry(a, true)];
  }

  lemma TwoDirs(a: string, b: string, isJunk: string -> bool)
    ensures DirNames([DirEntry(a, true), DirEntry(b, true)]) == {a, b}
    ensures FileNames([DirEntry(a, true), DirEntry(b, true)], isJunk) == {}
  {
    OneDir(a, isJunk);
    NamesExtend([DirEntry(a, true)], DirEntry(b, true), isJunk);
    assert [DirEntry(a, true)] + [DirEntry(b, true)] == [DirEntry(a, true), DirEntry(b, true)];
  }

  lemma NoEntries(isJunk: string -> bool)
    ensures DirNames([]) == {} && FileNames([], isJunk) == {}
  {
  }

  /** Each directory of the tree joined from its parent and its name. */
  lemma Joins()
    ensures Join(T, "c1") == C1 && Join(C1, "c2") == C2 && Join(C2, "c3x") == C3x
    ensures Join(C3x, "c4x") == C4x && Join(C2, "c3y") == C3y && Join(C3y, "c4y") == C4y
  {
    ChildPath(T, "c1", C1);
    ChildPath(C1, "c2", C2);
    ChildPath(C2, "c3x", C3x);
    ChildPath(C3x, "c4x", C4x);
    ChildPath(C2, "c3y", C3y);
    ChildPath(C3y, "c4y", C4y);
  }

  // Both inputs first reserve their chains: `c4x` up to `c1`, then `c4y` up
  // to `c3y`, whose parent `c2` is already reserved.
  ghost const A4: IndexMap := map[C4x := Reservation]
  ghost const A3: IndexMap := A4[C3x := Reservation]
  ghost const A2: IndexMap := A3[C2 := Reservation]
  ghost const R1: IndexMap := A2[C1 := Reservation]
  ghost const B3: IndexMap := R1[C4y := Reservation]
  ghost const R2: IndexMap := B3[C3y := Reservation]

  /** The calls that got past the guard, in the order they started. */
  const Jobs: seq<Job> := [Job(C4x, true), Job(C3x, false), Job(C2, false), Job(C1, false), Job(C4y, true), Job(C3y, false)]

  lemma ReserveC1()
    ensures ReserveChain(Opts, A2, C1, false) == Plan(R1, [Job(C1, false)])
  {
    ChildPath(T, "c1", C1);
    assert ReserveChain(Opts, R1, T, false) == Plan(R1, []);
  }

  lemma ReserveC2()
    ensures ReserveChain(Opts, A3, C2, false) == Plan(R1, [Job(C2, false), Job(C1, false)])
  {
    ChildPath(C1, "c2", C2);
    ReserveC1();
  }

  lemma ReserveC3x()
    ensures ReserveChain(Opts, A4, C3x, false) == Plan(R1, [Job(C3x, false), Job(C2, false), Job(C1, false)])
  {
    ChildPath(C2, "c3x", C3x);
    ReserveC2();
  }

  lemma ReserveFirst()
    ensures ReserveChain(Opts, map[], C4x, true) == Plan(R1, Jobs[..4])
  {
    ReserveC4x();
    FirstJobs();
  }

  lemma ReserveC4x()
    ensures ReserveChain(Opts, map[], C4x, true) ==
      Plan(R1, [Job(C4x, true)] + [Job(C3x, false), Job(C2, false), Job(C1, false)])
  {
    assert BelowStop(T, C4x) && Parent(C4x) == C3x by {
      ChildPath(C3x, "c4x", C4x);
    }
    ReserveChainStep(Opts, map[], C4x, true, C3x);
    ReserveC3x();
    assert map[][C4x := Reservation] == A4;
  }

  lemma FirstJobs()
    ensures [Job(C4x, true)] + [Job(C3x, false), Job(C2, false), Job(C1, false)] == Jobs[..4]
  {
  }

  lemma ReserveC3y()
    ensures ReserveChain(Opts, B3, C3y, false) == Plan(R2, [Job(C3y, false)])
  {
    ChildPath(C2, "c3y", C3y);
    assert Reserved(R2, C2);
  }

  lemma ReserveSecond()
    ensures ReserveChain(Opts, R1, C4y, true) == Plan(R2, Jobs[4..])
  {
    ChildPath(C3y, "c4y", C4y);
    ReserveC3y();
  }

  lemma ReserveInputs()
    ensures ReserveAll(Opts, map[], Inputs) == Plan(R2, Jobs)
  {
    ReserveFirst();
    ReserveSecond();
    ReserveAllCons(Opts, map[], C4x, [C4y]);
    ReserveAllCons(Opts, R1, C4y, []);
    assert [C4x] + [C4y] == Inputs && [C4y] + [] == [C4y];
    assert ReserveAll(Opts, R2, []) == Plan(R2, []);
    assert Jobs[..4] + (Jobs[4..] + []) == Jobs;
  }

  // The continuations then run from the last started call back to the first;
  // every child directory already has a node, so no placeholder is added.
  ghost const Q5: IndexMap := R2[C3y := Dir(Ready, {"c4y"}, {})]
  ghost const Q4: IndexMap := Q5[C4y := Dir(Ready, {}, {})]
  ghost const Q3: IndexMap := Q4[C1 := Dir(Ready, {"c2"}, {})]
  ghost const Q2: IndexMap := Q3[C2 := Dir(Ready, {"c3x", "c3y"}, {})]
  ghost const Q1: IndexMap := Q2[C3x := Dir(Ready, {"c4x"}, {})]

  /** The index after both inputs have been read. */
  ghost const Indexed2: IndexMap := Q1[C4x := Dir(Ready, {}, {})]

  lemma ResumeC3y()
    ensures Settle(Tree, R2, Jobs[5..]) == Q5
  {
    var es: seq<DirEntry> := [DirEntry("c4y", true)];
    assert Jobs[6..] == [];
    Joins();
    assert Jobs[5].path == C3y;
    SettleKnownStep(Tree, R2, Jobs, 5, R2, es);
    OneDir("c4y", Tree.isJunk);
  }

  lemma ResumeC4y()
    ensures Settle(Tree, R2, Jobs[4..]) == Q4
  {
    var es: seq<DirEntry> := [];
    ResumeC3y();
    assert Jobs[4].path == C4y;
    SettleKnownStep(Tree, R2, Jobs, 4, Q5, es);
    NoEntries(Tree.isJunk);
  }

  lemma ResumeC1()
    ensures Settle(Tree, R2, Jobs[3..]) == Q3
  {
    var es: seq<DirEntry> := [DirEntry("c2", true)];
    ResumeC4y();
    Joins();
    assert Jobs[3].path == C1;
    SettleKnownStep(Tree, R2, Jobs, 3, Q4, es);
    OneDir("c2", Tree.isJunk);
  }

  lemma ResumeC2()
    ensures Settle(Tree, R2, Jobs[2..]) == Q2
  {
    var es: seq<DirEntry> := [DirEntry("c3x", true), DirEntry("c3y", true)];
    ResumeC1();
    Joins();
    assert Jobs[2].path == C2;
    SettleKnownStep(Tree, R2, Jobs, 2, Q3, es);
    TwoDirs("c3x", "c3y", Tree.isJunk);
  }

  lemma ResumeC3x()
    ensures Settle(Tree, R2, Jobs[1..]) == Q1
  {
    var es: seq<DirEntry> := [DirEntry("c4x", true)];
    ResumeC2();
    Joins();
    assert Jobs[1].path == C3x;
    SettleKnownStep(Tree, R2, Jobs, 1, Q2, es);
    OneDir("c4x", Tree.isJunk);
  }

  lemma ResumeAllJobs()
    ensures Settle(Tree, R2, Jobs) == Indexed2
  {
    var es: seq<DirEntry> := [];
    ResumeC3x();
    assert Jobs[0].path == C4x;
    SettleKnownStep(Tree, R2, Jobs, 0, Q1, es);
    NoEntries(Tree.isJunk);
    assert Jobs[0..] == Jobs;
  }

  lemma JobsListed()
    ensures forall j :: j in Jobs ==> ReadDir(Tree, j.path).Listed?
  {
  }

  /** Reading the two inputs of the test passes and indexes the whole tree below stop. */
  lemma ReadInputs()
    ensures ReadAll(Opts, Tree, map[], Inputs) == Indexed(Indexed2, Pass)
  {
    ReserveInputs();
    ResumeAllJobs();
    JobsListed();
    ReadAllListed(Opts, Tree, map[], Inputs, Plan(R2, Jobs));
  }

  // The walk from `c4x` deletes `c4x` and `c3x`, then stops deleting at `c2`,
  // which still lists `c3y`.  The walk from `c4y` then deletes `c4y`, `c3y`,
  // and the now empty `c2` and `c1`.
  ghost const M0 := Memory(Indexed2, {}, {})
  ghost const M1 := Memory((M0.index - {C4x})[C3x := Dir(Ready, {}, {})], {}, M0.deletedDirs + {C4x})
  ghost const M2 := Memory((M1.index - {C3x})[C2 := Dir(Ready, {"c3y"}, {})], {}, M1.deletedDirs + {C3x})
  ghost const M3 := Memory((M2.index - {C4y})[C3y := Dir(Ready, {}, {})], {}, M2.deletedDirs + {C4y})
  ghost const M4 := Memory((M3.index - {C3y})[C2 := Dir(Ready, {}, {})], {}, M3.deletedDirs + {C3y})
  ghost const M5 := Memory((M4.index - {C2})[C1 := Dir(Ready, {}, {})], {}, M4.deletedDirs + {C2})
  ghost const M6 := Memory(M5.index - {C1}, {}, M5.deletedDirs + {C1})

  /** Deleting a READY directory without files and subdirectories whose parent has a node. */
  lemma DeleteEmptyDir(o: Options, m: Memory, q: Path, isInitial: bool, up: Dir)
    requires q in m.index && m.index[q] == Dir(Ready, {}, {})
    requires Parent(q) != q && Parent(q) in m.index && m.index[Parent(q)] == up
    ensures Step(o, m, q, isInitial) ==
      Decision(Memory((m.index - {q})[Parent(q) := Dir(up.status, up.dirs - {Basename(q)}, up.files - {Basename(q)})],
                      m.deletedFiles, m.deletedDirs + {q}),
               Some(Entry(q, true)))
  {
    assert DirQualifies(o, m.index, q, isInitial);
    StepWhenDir(o, m, q, isInitial);
  }

  /** What the walks find in the index. */
  lemma Lookups()
    ensures C4x in M0.index && M0.index[C4x] == Dir(Ready, {}, {})
    ensures C3x in M0.index - {C4x} && M0.index[C3x] == Dir(Ready, {"c4x"}, {})
    ensures C3x in M1.index && M1.index[C3x] == Dir(Ready, {}, {})
    ensures C2 in M1.index - {C3x} && M1.index[C2] == Dir(Ready, {"c3x", "c3y"}, {})
    ensures C2 in M2.index && M2.index[C2] == Dir(Ready, {"c3y"}, {})
    ensures C1 in M2.index && M2.index[C1] == Dir(Ready, {"c2"}, {})
    ensures C4y in M2.index && M2.index[C4y] == Dir(Ready, {}, {})
    ensures C3y in M2.index - {C4y} && M2.index[C3y] == Dir(Ready, {"c4y"}, {})
  {
    Distinct();
  }

  lemma LookupsAbove()
    ensures C3y in M3.index && M3.index[C3y] == Dir(Ready, {}, {})
    ensures C2 in M3.index - {C3y} && M3.index[C2] == Dir(Ready, {"c3y"}, {})
    ensures C2 in M4.index && M4.index[C2] == Dir(Ready, {}, {})
    ensures C1 in M4.index - {C2} && M4.index[C1] == Dir(Ready, {"c2"}, {})
  {
    Distinct();
    Lookups();
  }

  lemma LookupsTop()
    ensures C1 in M5.index && M5.index[C1] == Dir(Ready, {}, {})
    ensures T !in M5.index - {C1}
  {
    Distinct();
    LookupsAbove();
  }

  lemma StepC4x()
    ensures Step(Opts, M0, C4x, true) == Decision(M1, Some(Entry(C4x, true)))
  {
    ChildPath(C3x, "c4x", C4x);
    Lookups();
    DeleteEmptyDir(Opts, M0, C4x, true, Dir(Ready, {"c4x"}, {}));
    assert Dir(Ready, {"c4x"} - {"c4x"}, {} - {"c4x"}) == Dir(Ready, {}, {});
  }

  lemma StepC3x()
    ensures Step(Opts, M1, C3x, false) == Decision(M2, Some(Entry(C3x, true)))
  {
    ChildPath(C2, "c3x", C3x);
    Lookups();
    DeleteEmptyDir(Opts, M1, C3x, false, Dir(Ready, {"c3x", "c3y"}, {}));
    assert Dir(Ready, {"c3x", "c3y"} - {"c3x"}, {} - {"c3x"}) == Dir(Ready, {"c3y"}, {});
  }

  lemma StepC2Kept()
    ensures Step(Opts, M2, C2, false) == Decision(M2, None)
  {
    Lookups();
    assert !DirQualifies(Opts, M2.index, C2, false) by {
      assert "c3y" in M2.index[C2].dirs;
    }
    StepWhenNeither(Opts, M2, C2, false);
  }

  lemma StepC1Kept()
    ensures Step(Opts, M2, C1, false) == Decision(M2, None)
  {
    Lookups();
    assert !DirQualifies(Opts, M2.index, C1, false) by {
      assert "c2" in M2.index[C1].dirs;
    }
    StepWhenNeither(Opts, M2, C1, false);
  }

  /** The first walk deletes `c4x` and `c3x`, and `c3x` is its topmost decision. */
  lemma WalkFirst()
    ensures TopWalk(Opts, M0, C4x, true, None) == Walk(M2, Some(Entry(C3x, true)))
  {
    ChildPath(T, "c1", C1);
    ChildPath(C1, "c2", C2);
    ChildPath(C2, "c3x", C3x);
    ChildPath(C3x, "c4x", C4x);
    StepC4x();
    WalkUnfolds(Opts, M0, C4x, true, None);
    StepC3x();
    WalkUnfolds(Opts, M1, C3x, false, Some(Entry(C4x, true)));
    StepC2Kept();
    WalkUnfolds(Opts, M2, C2, false, Some(Entry(C3x, true)));
    StepC1Kept();
    WalkUnfolds(Opts, M2, C1, false, Some(Entry(C3x, true)));
  }

  lemma StepC4y()
    ensures Step(Opts, M2, C4y, true) == Decision(M3, Some(Entry(C4y, true)))
  {
    ChildPath(C3y, "c4y", C4y);
    Lookups();
    DeleteEmptyDir(Opts, M2, C4y, true, Dir(Ready, {"c4y"}, {}));
    assert Dir(Ready, {"c4y"} - {"c4y"}, {} - {"c4y"}) == Dir(Ready, {}, {});
  }

  lemma StepC3y()
    ensures Step(Opts, M3, C3y, false) == Decision(M4, Some(Entry(C3y, true)))
  {
    ChildPath(C2, "c3y", C3y);
    LookupsAbove();
    DeleteEmptyDir(Opts, M3, C3y, false, Dir(Ready, {"c3y"}, {}));
    assert Dir(Ready, {"c3y"} - {"c3y"}, {} - {"c3y"}) == Dir(Ready, {}, {});
  }

  lemma StepC2()
    ensures Step(Opts, M4, C2, false) == Decision(M5, Some(Entry(C2, true)))
  {
    ChildPath(C1, "c2", C2);
    LookupsAbove();
    DeleteEmptyDir(Opts, M4, C2, false, Dir(Ready, {"c2"}, {}));
    assert Dir(Ready, {"c2"} - {"c2"}, {} - {"c2"}) == Dir(Ready, {}, {});
  }

  lemma StepC1()
    ensures Step(Opts, M5, C1, false) == Decision(M6, Some(Entry(C1, true)))
  {
    ChildPath(T, "c1", C1);
    LookupsTop();
    assert DirQualifies(Opts, M5.index, C1, false);
    StepWhenDir(Opts, M5, C1, false);
  }

  lemma WalkFromC1()
    ensures TopWalk(Opts, M5, C1, false, Some(Entry(C2, true))) == Walk(M6, Some(Entry(C1, true)))
  {
    ChildPath(T, "c1", C1);
    StepC1();
    WalkUnfolds(Opts, M5, C1, false, Some(Entry(C2, true)));
  }

  lemma WalkFromC2()
    ensures TopWalk(Opts, M4, C2, false, Some(Entry(C3y, true))) == Walk(M6, Some(Entry(C1, true)))
  {
    ChildPath(C1, "c2", C2);
    StepC2();
    WalkUnfolds(Opts, M4, C2, false, Some(Entry(C3y, true)));
    WalkFromC1();
  }

  lemma WalkFromC3y()
    ensures TopWalk(Opts, M3, C3y, false, Some(Entry(C4y, true))) == Walk(M6, Some(Entry(C1, true)))
  {
    ChildPath(C2, "c3y", C3y);
    StepC3y();
    WalkUnfolds(Opts, M3, C3y, false, Some(Entry(C4y, true)));
    WalkFromC2();
  }

  /** The second walk deletes the rest of the tree, and `c1` is its topmost decision. */
  lemma WalkSecond()
    ensures TopWalk(Opts, M2, C4y, true, None) == Walk(M6, Some(Entry(C1, true)))
  {
    ChildPath(C3y, "c4y", C4y);
    StepC4y();
    WalkUnfolds(Opts, M2, C4y, true, None);
    WalkFromC3y();
  }

  lemma DecideSecond()
    ensures DecideAll(Opts, M2, Inputs[1..]) == Decided(M6, [Entry(C1, true)])
  {
    var w := TopWalk(Opts, M2, C4y, true, None);
    assert w == Walk(M6, Some(Entry(C1, true))) by {
      WalkSecond();
    }
    assert DecideAll(Opts, M2, Inputs[1..]) ==
      Decided(DecideAll(Opts, w.mem, Inputs[2..]).mem, Chosen(w.top) + DecideAll(Opts, w.mem, Inputs[2..]).entries) by {
      DecideAllUnfolds(Opts, M2, Inputs, 1);
    }
    assert Inputs[2..] == [];
  }

  /** The two walks decide `c3x` and then `c1`, and together empty the index. */
  lemma DecideInputs()
    ensures DecideAll(Opts, M0, Inputs) == Decided(M6, [Entry(C3x, true), Entry(C1, true)])
  {
    var w := TopWalk(Opts, M0, C4x, true, None);
    var rest := DecideAll(Opts, M2, Inputs[1..]);
    assert w == Walk(M2, Some(Entry(C3x, true))) by {
      WalkFirst();
    }
    assert rest == Decided(M6, [Entry(C1, true)]) by {
      DecideSecond();
    }
    assert DecideAll(Opts, M0, Inputs) == Decided(rest.mem, [w.top.value] + rest.entries);
  }

  /** `c1` is a proper prefix of `c3x`, so it is shorter in UTF-16 code units. */
  lemma ShorterC1()
    ensures Utf16Length(C1) < Utf16Length(C3x)
  {
    assert C1 <= C3x && |C1| < |C3x|;
    Utf16Prefix(C1, C3x);
  }

  /** Sorting puts `c1` first, and `c3x` lies under it. */
  lemma FilterDecisions()
    ensures Keep(SortByLength([Entry(C3x, true), Entry(C1, true)])) == [Entry(C1, true)]
  {
    ShorterC1();
    SortPair(Entry(C3x, true), Entry(C1, true));
    KeepPair(Entry(C1, true), Entry(C3x, true));
  }

  /**
   * Two inputs under a common parent: the scanner reports the single
   * topmost directory `c1`, which covers both.
   */
  method CommonParents() returns (r: Result<seq<Entry>, ErrorCode>)
    ensures r == Success([Entry(C1, true)])
  {
    var scanner := new Scanner(Opts);
    r := scanner.GetPathsToDelete(Tree, Inputs);
    ReadInputs();
    DecideInputs();
    FilterDecisions();
  }

  // A missing input.  Without `force` the read of the batch rejects with
  // ENOENT; with `force` the failure is tolerated and nothing is deleted.

  lemma MissingPath()
    ensures Join(C1, "none") == Missing && Parent(Missing) == C1 && Basename(Missing) == "none"
    ensures Basename("none") == "none"
    ensures BelowStop(T, Missing) && Missing !in Tree.fs
  {
    ChildPath(C1, "none", Missing);
    BasenameOfName("none");
  }

  lemma MissingRead()
    ensures ReadAll(Opts, Tree, map[], [Missing]) == ReadUp(Opts, Tree, map[], Missing, true)
    ensures ReadAll(Opts, Tree, map[], [Missing]).outcome == Fail(ENOENT)
  {
    MissingPath();
    MissingWithoutForceRejects(Opts, Tree, map[], Missing);
    ReadAllSingle(Opts, Tree, map[], Missing);
  }

  /** Without `force`, a missing input makes the scanner reject with ENOENT. */
  method MissingRejected() returns (r: Result<seq<Entry>, ErrorCode>)
    ensures r == Failure(ENOENT)
  {
    var scanner := new Scanner(Opts);
    r := scanner.GetPathsToDelete(Tree, [Missing]);
    MissingRead();
  }

  /** The options with `force`. */
  const Forced := Options(T, true, false)

  ghost const F1: IndexMap := map[Missing := Reservation][C1 := Reservation]
  ghost const F2: IndexMap := F1[C2 := Placeholder][C1 := Dir(Ready, {"c2"}, {})]

  /** The index after the forced read: the parent is READY and the missing path has no node. */
  ghost const ForcedIndex: IndexMap := F2 - {Missing}

  lemma ReadForcedC1()
    ensures ReadUp(Forced, Tree, map[Missing := Reservation], C1, false) == Indexed(F2, Pass)
  {
    ChildPath(T, "c1", C1);
    ChildPath(C1, "c2", C2);
    assert ReadUp(Forced, Tree, F1, T, false) == Indexed(F1, Pass);
    ReadUpUnfolds(Forced, Tree, map[Missing := Reservation], C1, false);
    OneDir("c2", Tree.isJunk);
    assert C2 != Missing;
    PlaceholdersExtend(F1, C1, [], DirEntry("c2", true));
  }

  lemma ReadUpForced()
    ensures ReadUp(Forced, Tree, map[], Missing, true) == Indexed(ForcedIndex, Pass)
  {
    MissingPath();
    ReadForcedC1();
    ReadUpUnfolds(Forced, Tree, map[], Missing, true);
    assert Tolerated(Forced, ENOENT, true);
  }

  lemma ReadForced()
    ensures ReadAll(Forced, Tree, map[], [Missing]) == Indexed(ForcedIndex, Pass)
  {
    ReadUpForced();
    ReadAllSingle(Forced, Tree, map[], Missing);
  }

  lemma WalkForcedC1()
    ensures var m := Memory(ForcedIndex, {}, {});
      TopWalk(Forced, m, C1, false, None) == Walk(m, None)
  {
    var m := Memory(ForcedIndex, {}, {});
    ChildPath(T, "c1", C1);
    assert C1 != Missing && C1 != C2;
    assert C1 in m.index && m.index[C1] == Dir(Ready, {"c2"}, {});
    assert !DirQualifies(Forced, m.index, C1, false) by {
      assert "c2" in m.index[C1].dirs;
    }
    StepWhenNeither(Forced, m, C1, false);
    WalkUnfolds(Forced, m, C1, false, None);
  }

  lemma WalkForced()
    ensures TopWalk(Forced, Memory(ForcedIndex, {}, {}), Missing, true, None) == Walk(Memory(ForcedIndex, {}, {}), None)
  {
    var m := Memory(ForcedIndex, {}, {});
    MissingPath();
    assert Missing !in m.index;
    assert !FileQualifies(Forced, m.index, Missing, true);
    StepWhenNeither(Forced, m, Missing, true);
    WalkUnfolds(Forced, m, Missing, true, None);
    WalkForcedC1();
  }

  /** With `force`, a missing input is skipped and the scanner reports nothing to delete. */
  method MissingForced() returns (r: Result<seq<Entry>, ErrorCode>)
    ensures r == Success([])
  {
    var scanner := new Scanner(Forced);
    r := scanner.GetPathsToDelete(Tree, [Missing]);
    ReadForced();
    WalkForced();
    DecideAllUnfolds(Forced, Memory(ForcedIndex, {}, {}), [Missing], 0);
    assert [Missing][0..] == [Missing] && [Missing][1..] == [];
    assert SortByLength([]) == [] && Keep([]) == [];
  }

  // The stop directory is never deleted: stopping at the input itself leaves
  // nothing to delete, and stopping at its parent deletes the input alone.

  /** With the input as the stop directory, nothing is read and nothing is deleted. */
  method StopAtInput() returns (r: Result<seq<Entry>, ErrorCode>)
    ensures r == Success([])
  {
    var o := Options(C4x, false, false);
    var scanner := new Scanner(o);
    r := scanner.GetPathsToDelete(Tree, [C4x]);
    assert [C4x][0..] == [C4x] && [C4x][1..] == [];
    ReadAllSingle(o, Tree, map[], C4x);
    DecideAllUnfolds(o, Memory(map[], {}, {}), [C4x], 0);
    assert SortByLength([]) == [] && Keep([]) == [];
  }

  lemma StopAtParentRead()
    ensures ReadAll(Options(C3x, false, false), Tree, map[], [C4x]) == Indexed(map[C4x := Dir(Ready, {}, {})], Pass)
  {
    var o := Options(C3x, false, false);
    ChildPath(C3x, "c4x", C4x);
    assert ReadUp(o, Tree, map[C4x := Reservation], C3x, false) == Indexed(map[C4x := Reservation], Pass);
    ReadUpUnfolds(o, Tree, map[], C4x, true);
    NoEntries(Tree.isJunk);
    ReadAllSingle(o, Tree, map[], C4x);
  }

  lemma StopAtParentWalk()
    ensures var m := Memory(map[C4x := Dir(Ready, {}, {})], {}, {});
      TopWalk(Options(C3x, false, false), m, C4x, true, None) == Walk(Memory(map[], {}, {C4x}), Some(Entry(C4x, true)))
  {
    var o := Options(C3x, false, false);
    var m := Memory(map[C4x := Dir(Ready, {}, {})], {}, {});
    ChildPath(C3x, "c4x", C4x);
    assert DirQualifies(o, m.index, C4x, true);
    StepWhenDir(o, m, C4x, true);
    assert m.index - {C4x} == map[];
    WalkUnfolds(o, m, C4x, true, None);
  }

  lemma StopAtParentDecide()
    ensures DecideAll(Options(C3x, false, false), Memory(map[C4x := Dir(Ready, {}, {})], {}, {}), [C4x]) ==
      Decided(Memory(map[], {}, {C4x}), [Entry(C4x, true)])
  {
    var o := Options(C3x, false, false);
    StopAtParentWalk();
    DecideAllUnfolds(o, Memory(map[C4x := Dir(Ready, {}, {})], {}, {}), [C4x], 0);
    assert [C4x][0..] == [C4x] && [C4x][1..] == [];
    assert [Entry(C4x, true)] + [] == [Entry(C4x, true)];
  }

  /** With the parent as the stop directory, only the input is deleted. */
  method StopAtParent() returns (r: Result<seq<Entry>, ErrorCode>)
    ensures r == Success([Entry(C4x, true)])
  {
    var o := Options(C3x, false, false);
    var scanner := new Scanner(o);
    r := scanner.GetPathsToDelete(Tree, [C4x]);
    StopAtParentRead();
    StopAtParentDecide();
    SingleKept(Entry(C4x, true));
  }
}
