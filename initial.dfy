/**
 * The scanner on a second concrete tree, for the rules about initial paths:
 * `/t` is the stop directory and holds `a1/a2/a3/a4`, the file `a1/a2/a2.txt`,
 * junk `.DS_Store` files in `a1`, `a2` and `a3`, and the directory `d1` with
 * the files `d11.txt` and `d12.txt`.
 */
module InitialScenarios {
  import opened Wrappers
  import opened Paths
  import opened Indexer
  import opened Batch
  import opened Resolver
  import opened SubPaths
  import opened RmUp

  const T: Path := "/t"
  const A1: Path := "/t/a1"
  const A2: Path := "/t/a1/a2"
  const A3: Path := "/t/a1/a2/a3"
  const A4: Path := "/t/a1/a2/a3/a4"
  const D1: Path := "/t/d1"
  const D11: Path := "/t/d1/d11.txt"
  const D12: Path := "/t/d1/d12.txt"
  const A2Txt: Path := "/t/a1/a2/a2.txt"

  const Junk := DirEntry(".DS_Store", false)

  /** The listings of the tree; listing a file fails with ENOTDIR. */
  const Tree := Env(
    map[A1 := Listed([Junk, DirEntry("a2", true)]),
        A2 := Listed([DirEntry("a2.txt", false), Junk, DirEntry("a3", true)]),
        A3 := Listed([Junk, DirEntry("a4", true)]),
        A4 := Listed([Junk]),
        D1 := Listed([DirEntry("d11.txt", false), DirEntry("d12.txt", false)]),
        D11 := Failed(ENOTDIR),
        D12 := Failed(ENOTDIR),
        A2Txt := Failed(ENOTDIR)],
    (n: string) => n == ".DS_Store")

  /** The listing of `a1` holds only junk besides `a2`. */
  lemma NamesA1()
    ensures DirNames([Junk, DirEntry("a2", true)]) == {"a2"}
    ensures FileNames([Junk, DirEntry("a2", true)], Tree.isJunk) == {}
  {
    NamesExtend([], Junk, Tree.isJunk);
    assert [] + [Junk] == [Junk];
    NamesExtend([Junk], DirEntry("a2", true), Tree.isJunk);
    assert [Junk] + [DirEntry("a2", true)] == [Junk, DirEntry("a2", true)];
  }

  /** The listing of `a2`: one file, one junk file, one directory. */
  lemma NamesA2()
    ensures DirNames([DirEntry("a2.txt", false), Junk, DirEntry("a3", true)]) == {"a3"}
    ensures FileNames([DirEntry("a2.txt", false), Junk, DirEntry("a3", true)], Tree.isJunk) == {"a2.txt"}
  {
    var f := DirEntry("a2.txt", false);
    NamesExtend([], f, Tree.isJunk);
    assert [] + [f] == [f];
    NamesExtend([f], Junk, Tree.isJunk);
    assert [f] + [Junk] == [f, Junk];
    NamesExtend([f, Junk], DirEntry("a3", true), Tree.isJunk);
    assert [f, Junk] + [DirEntry("a3", true)] == [f, Junk, DirEntry("a3", true)];
  }

  lemma NamesD1()
    ensures DirNames([DirEntry("d11.txt", false), DirEntry("d12.txt", false)]) == {}
    ensures FileNames([DirEntry("d11.txt", false), DirEntry("d12.txt", false)], Tree.isJunk) == {"d11.txt", "d12.txt"}
  {
    var f := DirEntry("d11.txt", false);
    var g := DirEntry("d12.txt", false);
    NamesExtend([], f, Tree.isJunk);
    assert [] + [f] == [f];
    NamesExtend([f], g, Tree.isJunk);
    assert [f] + [g] == [f, g];
  }

  // Reading `a2`: it and `a1` are reserved, `a1` is populated first, then `a2`,
  // whose listing gives `a3` a placeholder.
  ghost const P1: IndexMap := map[A2 := Reservation]
  ghost const P2: IndexMap := P1[A1 := Reservation]
  ghost const Q1: IndexMap := P2[A1 := Dir(Ready, {"a2"}, {})]

  /** The index after `a2` has been read. */
  ghost const Q2: IndexMap := Q1[A3 := Placeholder][A2 := Dir(Ready, {"a3"}, {"a2.txt"})]

  lemma ReadA1(o: Options)
    requires o.stop == T
    ensures ReadUp(o, Tree, P1, A1, false) == Indexed(Q1, Pass)
  {
    ChildPath(T, "a1", A1);
    ChildPath(A1, "a2", A2);
    assert ReadUp(o, Tree, P2, T, false) == Indexed(P2, Pass);
    ReadUpUnfolds(o, Tree, P1, A1, false);
    NamesA1();
    assert AddPlaceholders(P2, A1, [Junk, DirEntry("a2", true)]) == P2 by {
      PlaceholdersExtend(P2, A1, [], Junk);
      assert [] + [Junk] == [Junk];
      PlaceholdersExtend(P2, A1, [Junk], DirEntry("a2", true));
      assert [Junk] + [DirEntry("a2", true)] == [Junk, DirEntry("a2", true)];
    }
  }

  lemma PlaceholdersA2()
    ensures AddPlaceholders(Q1, A2, [DirEntry("a2.txt", false), Junk, DirEntry("a3", true)]) == Q1[A3 := Placeholder]
  {
    var f := DirEntry("a2.txt", false);
    ChildPath(A2, "a3", A3);
    PlaceholdersExtend(Q1, A2, [], f);
    assert [] + [f] == [f];
    PlaceholdersExtend(Q1, A2, [f], Junk);
    assert [f] + [Junk] == [f, Junk];
    PlaceholdersExtend(Q1, A2, [f, Junk], DirEntry("a3", true));
    assert [f, Junk] + [DirEntry("a3", true)] == [f, Junk, DirEntry("a3", true)];
  }

  lemma ReadA2(o: Options)
    requires o.stop == T
    ensures ReadUp(o, Tree, map[], A2, true) == Indexed(Q2, Pass)
  {
    ChildPath(A1, "a2", A2);
    ReadA1(o);
    ReadUpUnfolds(o, Tree, map[], A2, true);
    NamesA2();
    PlaceholdersA2();
  }

  /** Reading `a2` twice: the second read finds it READY and changes nothing. */
  lemma ReadA2Twice(o: Options)
    requires o.stop == T
    ensures ReadAll(o, Tree, map[], [A2, A2]) == Indexed(Q2, Pass)
  {
    ReadA2(o);
    ReadAllRepeated(o, Tree, map[], [A2], A2);
    assert [A2] + [A2] == [A2, A2];
    ReadAllSingle(o, Tree, map[], A2);
  }

  // With `deleteInitial`, the walk from `a2` deletes the non-empty `a2`, after
  // which `a1` holds only junk and is deleted too.  The repeated input then
  // finds nothing left to decide.
  const Both := Options(T, true, true)

  ghost const N0 := Memory(Q2, {}, {})
  ghost const N1 := Memory((Q2 - {A2})[A1 := Dir(Ready, {}, {})], {}, N0.deletedDirs + {A2})
  ghost const N2 := Memory(N1.index - {A1}, {}, N1.deletedDirs + {A1})

  lemma StepA2()
    ensures Step(Both, N0, A2, true) == Decision(N1, Some(Entry(A2, true)))
  {
    ChildPath(A1, "a2", A2);
    assert DirQualifies(Both, N0.index, A2, true);
    StepWhenDir(Both, N0, A2, true);
    var rest := Q2 - {A2};
    assert rest[A1] == Dir(Ready, {"a2"}, {});
    assert Dir(Ready, {"a2"} - {"a2"}, {} - {"a2"}) == Dir(Ready, {}, {});
  }

  lemma StepA1()
    ensures Step(Both, N1, A1, false) == Decision(N2, Some(Entry(A1, true)))
  {
    ChildPath(T, "a1", A1);
    assert DirQualifies(Both, N1.index, A1, false);
    StepWhenDir(Both, N1, A1, false);
    assert T !in N1.index - {A1};
  }

  lemma WalkA2First()
    ensures TopWalk(Both, N0, A2, true, None) == Walk(N2, Some(Entry(A1, true)))
  {
    ChildPath(T, "a1", A1);
    ChildPath(A1, "a2", A2);
    StepA2();
    WalkUnfolds(Both, N0, A2, true, None);
    StepA1();
    WalkUnfolds(Both, N1, A1, false, Some(Entry(A2, true)));
  }

  lemma WalkA2Again()
    ensures TopWalk(Both, N2, A2, true, None) == Walk(N2, None)
  {
    ChildPath(T, "a1", A1);
    ChildPath(A1, "a2", A2);
    assert A1 !in N2.index && A2 !in N2.index;
    StepWhenNeither(Both, N2, A2, true);
    WalkUnfolds(Both, N2, A2, true, None);
    StepWhenNeither(Both, N2, A1, false);
    WalkUnfolds(Both, N2, A1, false, None);
  }

  lemma DecideA2Twice()
    ensures DecideAll(Both, N0, [A2, A2]) == Decided(N2, [Entry(A1, true)])
  {
    var w := TopWalk(Both, N0, A2, true, None);
    assert w == Walk(N2, Some(Entry(A1, true))) by {
      WalkA2First();
    }
    var w' := TopWalk(Both, N2, A2, true, None);
    assert w' == Walk(N2, None) by {
      WalkA2Again();
    }
    assert DecideAll(Both, N2, [A2, A2][1..]) == Decided(N2, []) by {
      DecideAllUnfolds(Both, N2, [A2, A2], 1);
      assert [A2, A2][2..] == [];
    }
    assert DecideAll(Both, N0, [A2, A2]) == Decided(N2, [Entry(A1, true)] + []) by {
      DecideAllUnfolds(Both, N0, [A2, A2], 0);
      assert [A2, A2][0..] == [A2, A2];
    }
  }

  /**
   * `a2` given twice with `force` and `deleteInitial`: the scanner reports the
   * single directory `a1`, since `a2` is deleted although it is not empty.
   */
  method DeleteInitialDir() returns (r: Result<seq<Entry>, ErrorCode>)
    ensures r == Success([Entry(A1, true)])
  {
    var scanner := new Scanner(Both);
    r := scanner.GetPathsToDelete(Tree, [A2, A2]);
    ReadA2Twice(Both);
    DecideA2Twice();
    SingleKept(Entry(A1, true));
  }

  /** Without `deleteInitial`, the non-empty `a2` stays, and so does `a1`. */
  lemma WalkA2Kept()
    ensures TopWalk(Options(T, true, false), N0, A2, true, None) == Walk(N0, None)
  {
    var o := Options(T, true, false);
    ChildPath(T, "a1", A1);
    ChildPath(A1, "a2", A2);
    assert !DirQualifies(o, N0.index, A2, true) by {
      assert "a3" in N0.index[A2].dirs;
    }
    StepWhenNeither(o, N0, A2, true);
    WalkUnfolds(o, N0, A2, true, None);
    assert !DirQualifies(o, N0.index, A1, false) by {
      assert "a2" in N0.index[A1].dirs;
    }
    StepWhenNeither(o, N0, A1, false);
    WalkUnfolds(o, N0, A1, false, None);
  }

  /** With `force` alone, the non-empty target is not deleted: nothing is reported. */
  method KeepNonEmptyTarget() returns (r: Result<seq<Entry>, ErrorCode>)
    ensures r == Success([])
  {
    var o := Options(T, true, false);
    var scanner := new Scanner(o);
    r := scanner.GetPathsToDelete(Tree, [A2]);
    ReadA2(o);
    ReadAllSingle(o, Tree, map[], A2);
    WalkA2Kept();
    DecideAllUnfolds(o, N0, [A2], 0);
    assert [A2][0..] == [A2] && [A2][1..] == [];
    assert SortByLength([]) == [] && Keep([]) == [];
  }

  // Deleting the single file `d1/d11.txt` with `deleteInitial`: its listing
  // fails with ENOTDIR, which is tolerated, and the file is chosen from its
  // parent's file names.
  const FileOpts := Options(T, false, true)

  ghost const G1: IndexMap := map[D11 := Reservation][D1 := Reservation][D1 := Dir(Ready, {}, {"d11.txt", "d12.txt"})]

  /** The index after the file has been read: only its parent has a node. */
  ghost const G2: IndexMap := G1 - {D11}

  lemma ReadD1()
    ensures ReadUp(FileOpts, Tree, map[D11 := Reservation], D1, false) == Indexed(G1, Pass)
  {
    ChildPath(T, "d1", D1);
    var r1 := map[D11 := Reservation][D1 := Reservation];
    assert ReadUp(FileOpts, Tree, r1, T, false) == Indexed(r1, Pass);
    ReadUpUnfolds(FileOpts, Tree, map[D11 := Reservation], D1, false);
    NamesD1();
    var es := [DirEntry("d11.txt", false), DirEntry("d12.txt", false)];
    assert AddPlaceholders(r1, D1, es) == r1 by {
      PlaceholdersExtend(r1, D1, [], es[0]);
      assert [] + [es[0]] == [es[0]];
      PlaceholdersExtend(r1, D1, [es[0]], es[1]);
      assert [es[0]] + [es[1]] == es;
    }
  }

  lemma ReadD11()
    ensures ReadAll(FileOpts, Tree, map[], [D11]) == Indexed(G2, Pass)
  {
    ChildPath(D1, "d11.txt", D11);
    assert ReadUp(FileOpts, Tree, map[], D11, true) == Indexed(G2, Pass) by {
      ReadD1();
      ReadUpUnfolds(FileOpts, Tree, map[], D11, true);
      assert ReadDir(Tree, D11) == Failed(ENOTDIR);
      assert Tolerated(FileOpts, ENOTDIR, true);
    }
    ReadAllSingle(FileOpts, Tree, map[], D11);
  }

  ghost const H0 := Memory(G2, {}, {})
  ghost const H1 := Memory(G2[D1 := Dir(Ready, {}, {"d12.txt"})], {D11}, {})

  /** What the step at `d11.txt` finds in the index. */
  lemma LookupD1()
    ensures D11 !in G2 && D1 in G2 && G2[D1] == Dir(Ready, {}, {"d11.txt", "d12.txt"})
  {
  }

  lemma D11Path()
    ensures Parent(D11) == D1 && Basename(D11) == "d11.txt" && Basename("d11.txt") == "d11.txt"
  {
    ChildPath(D1, "d11.txt", D11);
    BasenameOfName("d11.txt");
  }

  /** An initial file under `deleteInitial` whose parent lists it is chosen, and unlinked from the parent. */
  lemma StepFile(o: Options, m: Memory, q: Path, parent: Path, name: string)
    requires Parent(q) == parent && Basename(q) == name && Basename(name) == name
    requires q !in m.index && parent in m.index && name in m.index[parent].files && o.deleteInitial
    ensures var d := m.index[parent];
      Step(o, m, q, true) ==
        Decision(Memory(m.index[parent := Dir(d.status, d.dirs, d.files - {name})], m.deletedFiles + {q}, m.deletedDirs),
                 Some(Entry(q, false)))
  {
    StepWhenFile(o, m, q, true);
  }

  /** The memory after the file is chosen, spelled as `StepFile` builds it. */
  lemma AfterD11()
    ensures var d := H0.index[D1];
      H1 == Memory(H0.index[D1 := Dir(d.status, d.dirs, d.files - {"d11.txt"})], H0.deletedFiles + {D11}, H0.deletedDirs)
  {
    LookupD1();
    assert {"d11.txt", "d12.txt"} - {"d11.txt"} == {"d12.txt"};
  }

  lemma StepD11()
    ensures Step(FileOpts, H0, D11, true) == Decision(H1, Some(Entry(D11, false)))
  {
    D11Path();
    LookupD1();
    StepFile(FileOpts, H0, D11, D1, "d11.txt");
    AfterD11();
  }

  lemma WalkD11()
    ensures TopWalk(FileOpts, H0, D11, true, None) == Walk(H1, Some(Entry(D11, false)))
  {
    ChildPath(T, "d1", D1);
    ChildPath(D1, "d11.txt", D11);
    StepD11();
    WalkUnfolds(FileOpts, H0, D11, true, None);
    assert !DirQualifies(FileOpts, H1.index, D1, false) by {
      assert "d12.txt" in H1.index[D1].files;
    }
    StepWhenNeither(FileOpts, H1, D1, false);
    WalkUnfolds(FileOpts, H1, D1, false, Some(Entry(D11, false)));
  }

  lemma DecideD11()
    ensures DecideAll(FileOpts, H0, [D11]) == Decided(H1, [Entry(D11, false)])
  {
    var w := TopWalk(FileOpts, H0, D11, true, None);
    assert w == Walk(H1, Some(Entry(D11, false))) by {
      WalkD11();
    }
    DecideAllUnfolds(FileOpts, H0, [D11], 0);
    assert [D11][0..] == [D11] && [D11][1..] == [];
    assert DecideAll(FileOpts, H1, []) == Decided(H1, []);
  }

  /** A single file with `deleteInitial`: the scanner reports the file, and its parent stays. */
  method DeleteSingleFile() returns (r: Result<seq<Entry>, ErrorCode>)
    ensures r == Success([Entry(D11, false)])
  {
    var scanner := new Scanner(FileOpts);
    r := scanner.GetPathsToDelete(Tree, [D11]);
    ReadD11();
    DecideD11();
    SingleKept(Entry(D11, false));
  }

  // A file given together with a path under it, with `deleteInitial`.  Both
  // inputs reserve their chains before any listing is acted on, so the second
  // call stops at the file's reservation and never lists the file as an
  // ancestor.  Both ENOTDIR failures are tolerated, and the file is reported.

  const D11x: Path := "/t/d1/d11.txt/x"

  /** The tree, where listing a path under the file fails with ENOTDIR too. */
  const UnderFile := Env(Tree.fs[D11x := Failed(ENOTDIR)], Tree.isJunk)

  ghost const K2: IndexMap := map[D11 := Reservation][D1 := Reservation]
  ghost const K3: IndexMap := K2[D11x := Reservation]
  const FileJobs := [Job(D11, true), Job(D1, false), Job(D11x, true)]

  lemma ReserveFile()
    ensures ReserveChain(FileOpts, map[], D11, true) == Plan(K2, [Job(D11, true), Job(D1, false)])
  {
    assert BelowStop(T, D11) && Parent(D11) == D1 by {
      ChildPath(D1, "d11.txt", D11);
    }
    ReserveChainStep(FileOpts, map[], D11, true, D1);
    assert BelowStop(T, D1) && Parent(D1) == T by {
      ChildPath(T, "d1", D1);
    }
    ReserveChainStep(FileOpts, map[D11 := Reservation], D1, false, T);
    assert ReserveChain(FileOpts, K2, T, false) == Plan(K2, []);
  }

  lemma ReserveUnderFile()
    ensures ReserveChain(FileOpts, K2, D11x, true) == Plan(K3, [Job(D11x, true)])
  {
    ChildPath(D11, "x", D11x);
    assert ReserveChain(FileOpts, K3, D11, false) == Plan(K3, []) by {
      assert Reserved(K3, D11);
    }
  }

  lemma ReserveFileAndBelow()
    ensures ReserveAll(FileOpts, map[], [D11, D11x]) == Plan(K3, FileJobs)
  {
    ReserveFile();
    ReserveUnderFile();
    ReserveAllCons(FileOpts, map[], D11, [D11x]);
    ReserveAllCons(FileOpts, K2, D11x, []);
    assert [D11, D11x] == [D11] + [D11x] && [D11x] == [D11x] + [];
  }

  /** Only the parent's listing succeeds; the two failures leave the index as it is. */
  lemma SettleFileAndBelow()
    ensures Settle(UnderFile, K3, FileJobs) == K3[D1 := Dir(Ready, {}, {"d11.txt", "d12.txt"})]
  {
    var es := [DirEntry("d11.txt", false), DirEntry("d12.txt", false)];
    assert Settle(UnderFile, K3, FileJobs[2..]) == K3 by {
      assert FileJobs[2..][1..] == FileJobs[3..] == [];
      assert ReadDir(UnderFile, D11x) == Failed(ENOTDIR);
    }
    NamesD1();
    SettleKnownStep(UnderFile, K3, FileJobs, 1, K3, es);
    var s1 := K3[D1 := Dir(Ready, {}, {"d11.txt", "d12.txt"})];
    assert Settle(UnderFile, K3, FileJobs[0..]) == s1 by {
      assert FileJobs[0..][1..] == FileJobs[1..];
      assert ReadDir(UnderFile, D11) == Failed(ENOTDIR);
    }
    assert FileJobs[0..] == FileJobs;
  }

  lemma SwallowFileAndBelow()
    ensures Removed(FileOpts, UnderFile, FileJobs) == {D11, D11x}
    ensures FirstRejection(FileOpts, UnderFile, FileJobs) == Pass
  {
    assert ReadDir(UnderFile, D11) == Failed(ENOTDIR) && ReadDir(UnderFile, D11x) == Failed(ENOTDIR);
    assert ReadDir(UnderFile, D1).Listed?;
    assert Swallowed(FileOpts, UnderFile, FileJobs[0]) && Swallowed(FileOpts, UnderFile, FileJobs[2]);
    assert !Swallowed(FileOpts, UnderFile, FileJobs[1]);
    FirstRejectionPass(FileOpts, UnderFile, FileJobs);
  }

  /** The batch leaves only the parent's node, as the file read alone does. */
  lemma ReadFileAndBelow()
    ensures ReadAll(FileOpts, UnderFile, map[], [D11, D11x]) == Indexed(G2, Pass)
  {
    var plan := ReserveAll(FileOpts, map[], [D11, D11x]);
    assert plan == Plan(K3, FileJobs) by {
      ReserveFileAndBelow();
    }
    assert Settle(UnderFile, K3, FileJobs) - Removed(FileOpts, UnderFile, FileJobs) == G2 by {
      SettleFileAndBelow();
      SwallowFileAndBelow();
      FileAndBelowLeft();
    }
    assert FirstRejection(FileOpts, UnderFile, FileJobs) == Pass by {
      SwallowFileAndBelow();
    }
  }

  lemma FileAndBelowLeft()
    ensures K3[D1 := Dir(Ready, {}, {"d11.txt", "d12.txt"})] - {D11, D11x} == G2
  {
    var l := K3[D1 := Dir(Ready, {}, {"d11.txt", "d12.txt"})] - {D11, D11x};
    assert l.Keys == {D1} == G2.Keys;
  }

  /** The walk from under the file finds no node at the path or at the file, and `d1` keeps a file. */
  lemma WalkFromD1()
    ensures TopWalk(FileOpts, H1, D1, false, None) == Walk(H1, None)
  {
    ChildPath(T, "d1", D1);
    assert !DirQualifies(FileOpts, H1.index, D1, false) by {
      assert "d12.txt" in H1.index[D1].files;
    }
    StepWhenNeither(FileOpts, H1, D1, false);
    WalkUnfolds(FileOpts, H1, D1, false, None);
  }

  lemma WalkFromFile()
    ensures TopWalk(FileOpts, H1, D11, false, None) == Walk(H1, None)
  {
    ChildPath(D1, "d11.txt", D11);
    assert D11 !in H1.index;
    StepWhenNeither(FileOpts, H1, D11, false);
    WalkUnfolds(FileOpts, H1, D11, false, None);
    WalkFromD1();
  }

  lemma WalkUnderFile()
    ensures TopWalk(FileOpts, H1, D11x, true, None) == Walk(H1, None)
  {
    ChildPath(D11, "x", D11x);
    assert D11 !in H1.index && D11x !in H1.index;
    StepWhenNeither(FileOpts, H1, D11x, true);
    WalkUnfolds(FileOpts, H1, D11x, true, None);
    WalkFromFile();
  }

  /** A batch of one input is its walk. */
  lemma DecideOne(o: Options, m: Memory, p: Path)
    requires |o.stop| > 0
    ensures var w := TopWalk(o, m, p, true, None);
      DecideAll(o, m, [p]) == Decided(w.mem, Chosen(w.top))
  {
    DecideAllUnfolds(o, m, [p], 0);
    assert [p][0..] == [p] && [p][1..] == [];
    assert Chosen(TopWalk(o, m, p, true, None).top) + [] == Chosen(TopWalk(o, m, p, true, None).top);
  }

  lemma DecideUnderFile()
    ensures DecideAll(FileOpts, H1, [D11x]) == Decided(H1, [])
  {
    WalkUnderFile();
    DecideOne(FileOpts, H1, D11x);
  }

  lemma DecideFileAndBelow()
    ensures DecideAll(FileOpts, H0, [D11, D11x]) == Decided(H1, [Entry(D11, false)])
  {
    var paths := [D11, D11x];
    assert TopWalk(FileOpts, H0, D11, true, None) == Walk(H1, Some(Entry(D11, false))) by {
      WalkD11();
    }
    DecideUnderFile();
    DecideAllUnfolds(FileOpts, H0, paths, 0);
    assert paths[0..] == paths && paths[1..] == [D11x];
  }

  /**
   * A file and a path under it, with `deleteInitial`: the inputs' failures are
   * both tolerated, and the file alone is reported.
   */
  method DeleteFileAndBelow() returns (r: Result<seq<Entry>, ErrorCode>)
    ensures r == Success([Entry(D11, false)])
  {
    var scanner := new Scanner(FileOpts);
    r := scanner.GetPathsToDelete(UnderFile, [D11, D11x]);
    ReadFileAndBelow();
    DecideFileAndBelow();
    SingleKept(Entry(D11, false));
  }
}
