/**
 * The scanner on the tree of `InitialScenarios`, for a directory and a file
 * below a common ancestor, the file given twice, with `force` and
 * `deleteInitial`: their decisions merge into the ancestor.
 */
module MergeScenarios {
  import opened Wrappers
  import opened Paths
  import opened Indexer
  import opened Batch
  import opened Resolver
  import opened SubPaths
  import opened RmUp
  import opened InitialScenarios
  import opened ParentScenarios

  // The first input `a4` reserves its chain up to `a1`; the second, the file
  // `a2/a2.txt`, reserves only the file, whose parent is already reserved;
  // the third is already reserved.  The file's ENOTDIR is tolerated and its
  // node deleted.  The first walk deletes `a4` and `a3`; the second deletes
  // the file, which empties `a2`, then `a2` and `a1`; the third finds nothing
  // left.  `a3` lies under `a1`, so only `a1` is reported.

  const Inputs := [A4, A2Txt, A2Txt]

  ghost const B1: IndexMap := map[A4 := Reservation]
  ghost const B2: IndexMap := B1[A3 := Reservation]
  ghost const B3: IndexMap := B2[A2 := Reservation]
  ghost const B4: IndexMap := B3[A1 := Reservation]
  ghost const B5: IndexMap := B4[A2Txt := Reservation]
  const ChainJobs := [Job(A4, true), Job(A3, false), Job(A2, false), Job(A1, false)]
  const MergeJobs := [Job(A4, true), Job(A3, false), Job(A2, false), Job(A1, false), Job(A2Txt, true)]
  const Jobs1 := [Job(A3, false), Job(A2, false), Job(A1, false), Job(A2Txt, true)]
  const Jobs2 := [Job(A2, false), Job(A1, false), Job(A2Txt, true)]
  const Jobs3 := [Job(A1, false), Job(A2Txt, true)]
  const Jobs4 := [Job(A2Txt, true)]
  ghost const S1: IndexMap := B5[A1 := Dir(Ready, {"a2"}, {})]
  ghost const S2: IndexMap := S1[A2 := Dir(Ready, {"a3"}, {"a2.txt"})]
  ghost const S3: IndexMap := S2[A3 := Dir(Ready, {"a4"}, {})]
  ghost const S4: IndexMap := S3[A4 := Dir(Ready, {}, {})]
  ghost const Merged: IndexMap := S4 - {A2Txt}

  lemma UpTxt()
    ensures BelowStop(T, A2Txt) && Parent(A2Txt) == A2 && Basename(A2Txt) == "a2.txt" && Basename("a2.txt") == "a2.txt"
  {
    ChildPath(A2, "a2.txt", A2Txt);
    BasenameOfName("a2.txt");
  }

  lemma InputsSplit()
    ensures Inputs == [A4] + [A2Txt, A2Txt] && [A2Txt, A2Txt] == [A2Txt] + [A2Txt] && [A2Txt] == [A2Txt] + []
    ensures [A4, A2Txt] + [A2Txt] == Inputs && [A4, A2Txt] == [A4] + [A2Txt]
  {
  }

  lemma JobsSplit()
    ensures MergeJobs == [Job(A4, true)] + Jobs1 && Jobs1 == [Job(A3, false)] + Jobs2
    ensures Jobs2 == [Job(A2, false)] + Jobs3 && Jobs3 == [Job(A1, false)] + Jobs4
    ensures Jobs4 == [Job(A2Txt, true)] + [] && MergeJobs == ChainJobs + (Jobs4 + [])
    ensures ChainJobs == [Job(A4, true)] + [Job(A3, false), Job(A2, false), Job(A1, false)]
    ensures [Job(A3, false), Job(A2, false), Job(A1, false)] == [Job(A3, false)] + [Job(A2, false), Job(A1, false)]
    ensures [Job(A2, false), Job(A1, false)] == [Job(A2, false)] + [Job(A1, false)]
  {
  }

  /** The reservations: each level is free when reached, and the file's parent is taken. */
  lemma FreshMerge()
    ensures !Reserved(B3, A1) && !Reserved(B2, A2) && !Reserved(B1, A3) && !Reserved(map[], A4)
    ensures !Reserved(B4, A2Txt) && Reserved(B5, A2) && map[][A4 := Reservation] == B1
  {
  }

  lemma ReserveMergeA1()
    ensures ReserveChain(Both, B3, A1, false) == Plan(B4, [Job(A1, false)])
  {
    AtStop();
    UpA1();
    FreshMerge();
    ReserveChainStep(Both, B3, A1, false, T);
  }

  lemma ReserveMergeA2()
    ensures ReserveChain(Both, B2, A2, false) == Plan(B4, [Job(A2, false), Job(A1, false)])
  {
    UpA2();
    FreshMerge();
    JobsSplit();
    ReserveChainStep(Both, B2, A2, false, A1);
    ReserveMergeA1();
  }

  lemma ReserveMergeA3()
    ensures ReserveChain(Both, B1, A3, false) == Plan(B4, [Job(A3, false), Job(A2, false), Job(A1, false)])
  {
    UpA3();
    FreshMerge();
    JobsSplit();
    ReserveChainStep(Both, B1, A3, false, A2);
    ReserveMergeA2();
  }

  lemma ReserveMergeA4()
    ensures ReserveChain(Both, map[], A4, true) == Plan(B4, ChainJobs)
  {
    UpA4();
    FreshMerge();
    JobsSplit();
    ReserveChainStep(Both, map[], A4, true, A3);
    ReserveMergeA3();
  }

  /** The file's parent is already reserved: the second input reserves only the file. */
  lemma ReserveMergeTxt()
    ensures ReserveChain(Both, B4, A2Txt, true) == Plan(B5, Jobs4)
  {
    UpTxt();
    FreshMerge();
    JobsSplit();
    ReserveChainStep(Both, B4, A2Txt, true, A2);
  }

  lemma ReserveMerge()
    ensures ReserveAll(Both, map[], [A4, A2Txt]) == Plan(B5, MergeJobs)
  {
    InputsSplit();
    JobsSplit();
    ReserveMergeA4();
    ReserveMergeTxt();
    ReserveAllCons(Both, map[], A4, [A2Txt]);
    ReserveAllCons(Both, B4, A2Txt, []);
  }

  // The continuations resume from the file back to `a4`.

  /** The child directory each continuation names already has a node. */
  lemma ChildrenReserved()
    ensures A2 in B5 && A3 in S1 && A4 in S2
  {
  }

  lemma SettleMergeTxt()
    ensures Settle(Tree, B5, Jobs4) == B5
  {
    ListingsA();
    assert Jobs4[1..] == [];
  }

  lemma SettleMergeA1()
    ensures Settle(Tree, B5, Jobs3) == S1
  {
    ListingsA();
    JobsSplit();
    SettleMergeTxt();
    KidsA1();
    ChildrenReserved();
    NamesA1();
    SettleCons(Tree, B5, Job(A1, false), Jobs4, B5, [Junk, DirEntry("a2", true)]);
  }

  lemma SettleMergeA2()
    ensures Settle(Tree, B5, Jobs2) == S2
  {
    ListingsA();
    JobsSplit();
    SettleMergeA1();
    KidsA2();
    ChildrenReserved();
    NamesA2();
    SettleCons(Tree, B5, Job(A2, false), Jobs3, S1, [DirEntry("a2.txt", false), Junk, DirEntry("a3", true)]);
  }

  lemma SettleMergeA3()
    ensures Settle(Tree, B5, Jobs1) == S3
  {
    ListingsA();
    JobsSplit();
    SettleMergeA2();
    KidsA3();
    ChildrenReserved();
    NamesA3();
    SettleCons(Tree, B5, Job(A3, false), Jobs2, S2, [Junk, DirEntry("a4", true)]);
  }

  lemma SettleMerge()
    ensures Settle(Tree, B5, MergeJobs) == S4
  {
    ListingsA();
    JobsSplit();
    SettleMergeA3();
    NamesA4();
    SettleCons(Tree, B5, Job(A4, true), Jobs1, S3, [Junk]);
  }

  /** Only the file's failure occurs, and `deleteInitial` swallows it. */
  lemma SwallowMerge()
    ensures Removed(Both, Tree, MergeJobs) == {A2Txt}
    ensures FirstRejection(Both, Tree, MergeJobs) == Pass
  {
    ListingsA();
    assert Swallowed(Both, Tree, MergeJobs[4]);
    assert !Swallowed(Both, Tree, MergeJobs[0]) && !Swallowed(Both, Tree, MergeJobs[1]);
    assert !Swallowed(Both, Tree, MergeJobs[2]) && !Swallowed(Both, Tree, MergeJobs[3]);
    FirstRejectionPass(Both, Tree, MergeJobs);
  }

  /** The repeated input changes nothing, and the rest reads as planned. */
  lemma ReadMerge()
    ensures ReadAll(Both, Tree, map[], Inputs) == Indexed(Merged, Pass)
  {
    InputsSplit();
    ReadAllRepeated(Both, Tree, map[], [A4, A2Txt], A2Txt);
    ReserveMerge();
    SettleMerge();
    SwallowMerge();
  }

  // The three walks.

  ghost const V0 := Memory(Merged, {}, {})
  ghost const V1 := Memory(Unlink(Merged - {A4}, A3, "a4", true), {}, {A4})
  ghost const V2 := Memory(Unlink(V1.index - {A3}, A2, "a3", true), {}, {A4, A3})
  ghost const V3 := Memory(Unlink(V2.index, A2, "a2.txt", false), V2.deletedFiles + {A2Txt}, V2.deletedDirs)
  ghost const V4 := Memory(Unlink(V3.index - {A2}, A1, "a2", true), {A2Txt}, {A4, A3, A2})
  ghost const V5 := Memory(Unlink(V4.index - {A1}, T, "a1", true), {A2Txt}, {A4, A3, A2, A1})

  lemma MergedNodes()
    ensures A4 in Merged && Merged[A4] == Dir(Ready, {}, {}) && A3 in Merged && Merged[A3] == Dir(Ready, {"a4"}, {})
  {
  }

  lemma MergeAfterA4()
    ensures A3 in V1.index && V1.index[A3] == Dir(Ready, {}, {})
    ensures A2 in V1.index && V1.index[A2] == Dir(Ready, {"a3"}, {"a2.txt"})
    ensures A1 in V1.index && V1.index[A1] == Dir(Ready, {"a2"}, {})
  {
    MergedNodes();
    assert {"a4"} - {"a4"} == {};
  }

  lemma MergeAfterA3()
    ensures A2Txt !in V2.index
    ensures A2 in V2.index && V2.index[A2] == Dir(Ready, {}, {"a2.txt"})
    ensures A1 in V2.index && V2.index[A1] == Dir(Ready, {"a2"}, {})
  {
    MergeAfterA4();
    assert {"a3"} - {"a3"} == {} && {"a2.txt"} - {"a3"} == {"a2.txt"};
  }

  lemma MergeAfterTxt()
    ensures A2 in V3.index && V3.index[A2] == Dir(Ready, {}, {})
    ensures A1 in V3.index && V3.index[A1] == Dir(Ready, {"a2"}, {})
  {
    MergeAfterA3();
    assert {"a2.txt"} - {"a2.txt"} == {};
  }

  lemma MergeAfterA2()
    ensures A1 in V4.index && V4.index[A1] == Dir(Ready, {}, {}) && T !in V4.index
  {
    MergeAfterTxt();
    assert {"a2"} - {"a2"} == {};
  }

  /** The second walk leaves no node on the file's chain. */
  lemma MergeEmpty()
    ensures A2Txt !in V5.index && A2 !in V5.index && A1 !in V5.index
  {
    MergeAfterA2();
  }

  /** The first walk: `a4` is initial and deleted under `deleteInitial`, then `a3` is empty. */
  lemma StepsFirst()
    ensures Step(Both, V0, A4, true) == Decision(V1, Some(Entry(A4, true)))
    ensures Step(Both, V1, A3, false) == Decision(V2, Some(Entry(A3, true)))
  {
    UpA4();
    MergedNodes();
    StepDirAt(Both, V0, A4, true, A3, "a4");
    UpA3();
    MergeAfterA4();
    StepDirAt(Both, V1, A3, false, A2, "a3");
  }

  /** ... and `a2` keeps the file, `a1` keeps `a2`. */
  lemma StepsFirstStop()
    ensures Step(Both, V2, A2, false) == Decision(V2, None)
    ensures Step(Both, V2, A1, false) == Decision(V2, None)
  {
    MergeAfterA3();
    assert "a2.txt" in V2.index[A2].files && "a2" in V2.index[A1].dirs;
    StepWhenNeither(Both, V2, A2, false);
    StepWhenNeither(Both, V2, A1, false);
  }

  /** The second walk: the file has no node and its parent lists it, so as an initial path it is deleted. */
  lemma StepMergeTxt()
    ensures Step(Both, V2, A2Txt, true) == Decision(V3, Some(Entry(A2Txt, false)))
  {
    UpTxt();
    MergeAfterA3();
    assert FileQualifies(Both, V2.index, A2Txt, true);
    StepWhenFile(Both, V2, A2Txt, true);
  }

  /** ... which leaves `a2` empty, and then `a1`. */
  lemma StepsSecond()
    ensures Step(Both, V3, A2, false) == Decision(V4, Some(Entry(A2, true)))
    ensures Step(Both, V4, A1, false) == Decision(V5, Some(Entry(A1, true)))
  {
    UpA2();
    MergeAfterTxt();
    StepDirAt(Both, V3, A2, false, A1, "a2");
    UpA1();
    MergeAfterA2();
    StepDirAt(Both, V4, A1, false, T, "a1");
  }

  /** The third walk finds no node. */
  lemma StepsThird()
    ensures Step(Both, V5, A2Txt, true) == Decision(V5, None)
    ensures Step(Both, V5, A2, false) == Decision(V5, None)
    ensures Step(Both, V5, A1, false) == Decision(V5, None)
  {
    UpTxt();
    MergeEmpty();
    StepWhenNeither(Both, V5, A2Txt, true);
    StepWhenNeither(Both, V5, A2, false);
    StepWhenNeither(Both, V5, A1, false);
  }

  lemma WalkFirstA1()
    ensures TopWalk(Both, V2, A1, false, Some(Entry(A3, true))) == Walk(V2, Some(Entry(A3, true)))
  {
    AtStop();
    UpA1();
    StepsFirstStop();
    WalkOn(Both, V2, A1, false, Some(Entry(A3, true)), T, Decision(V2, None));
  }

  lemma WalkFirstA2()
    ensures TopWalk(Both, V2, A2, false, Some(Entry(A3, true))) == Walk(V2, Some(Entry(A3, true)))
  {
    UpA2();
    StepsFirstStop();
    WalkOn(Both, V2, A2, false, Some(Entry(A3, true)), A1, Decision(V2, None));
    WalkFirstA1();
  }

  lemma WalkFirstA3()
    ensures TopWalk(Both, V1, A3, false, Some(Entry(A4, true))) == Walk(V2, Some(Entry(A3, true)))
  {
    UpA3();
    StepsFirst();
    WalkOn(Both, V1, A3, false, Some(Entry(A4, true)), A2, Decision(V2, Some(Entry(A3, true))));
    WalkFirstA2();
  }

  lemma WalkFirst()
    ensures TopWalk(Both, V0, A4, true, None) == Walk(V2, Some(Entry(A3, true)))
  {
    UpA4();
    StepsFirst();
    WalkOn(Both, V0, A4, true, None, A3, Decision(V1, Some(Entry(A4, true))));
    WalkFirstA3();
  }

  lemma WalkSecondA1()
    ensures TopWalk(Both, V4, A1, false, Some(Entry(A2, true))) == Walk(V5, Some(Entry(A1, true)))
  {
    AtStop();
    UpA1();
    StepsSecond();
    WalkOn(Both, V4, A1, false, Some(Entry(A2, true)), T, Decision(V5, Some(Entry(A1, true))));
  }

  lemma WalkSecondA2()
    ensures TopWalk(Both, V3, A2, false, Some(Entry(A2Txt, false))) == Walk(V5, Some(Entry(A1, true)))
  {
    UpA2();
    StepsSecond();
    WalkOn(Both, V3, A2, false, Some(Entry(A2Txt, false)), A1, Decision(V4, Some(Entry(A2, true))));
    WalkSecondA1();
  }

  lemma WalkSecond()
    ensures TopWalk(Both, V2, A2Txt, true, None) == Walk(V5, Some(Entry(A1, true)))
  {
    UpTxt();
    StepMergeTxt();
    WalkOn(Both, V2, A2Txt, true, None, A2, Decision(V3, Some(Entry(A2Txt, false))));
    WalkSecondA2();
  }

  lemma WalkThirdA1()
    ensures TopWalk(Both, V5, A1, false, None) == Walk(V5, None)
  {
    AtStop();
    UpA1();
    StepsThird();
    WalkOn(Both, V5, A1, false, None, T, Decision(V5, None));
  }

  lemma WalkThirdA2()
    ensures TopWalk(Both, V5, A2, false, None) == Walk(V5, None)
  {
    UpA2();
    StepsThird();
    WalkOn(Both, V5, A2, false, None, A1, Decision(V5, None));
    WalkThirdA1();
  }

  lemma WalkThird()
    ensures TopWalk(Both, V5, A2Txt, true, None) == Walk(V5, None)
  {
    UpTxt();
    StepsThird();
    WalkOn(Both, V5, A2Txt, true, None, A2, Decision(V5, None));
    WalkThirdA2();
  }

  lemma DecideMerge()
    ensures DecideAll(Both, V0, Inputs) == Decided(V5, [Entry(A3, true), Entry(A1, true)])
  {
    InputsSplit();
    WalkThird();
    assert DecideAll(Both, V5, []) == Decided(V5, []);
    DecideAllCons(Both, V5, A2Txt, [], Decided(V5, []));
    WalkSecond();
    DecideAllCons(Both, V2, A2Txt, [A2Txt], Decided(V5, []));
    WalkFirst();
    DecideAllCons(Both, V0, A4, [A2Txt, A2Txt], Decided(V5, [Entry(A1, true)]));
  }

  /** `a1` is shorter than `a3`, and `a3` lies under it. */
  lemma FilterMerge()
    ensures Keep(SortByLength([Entry(A3, true), Entry(A1, true)])) == [Entry(A1, true)]
  {
    assert A1 <= A3 && |A1| < |A3|;
    Utf16Prefix(A1, A3);
    SortPair(Entry(A3, true), Entry(A1, true));
    KeepPair(Entry(A1, true), Entry(A3, true));
  }

  method DeleteFileAndEmptyParents() returns (r: Result<seq<Entry>, ErrorCode>)
    ensures r == Success([Entry(A1, true)])
  {
    var scanner := new Scanner(Both);
    r := scanner.GetPathsToDelete(Tree, Inputs);
    ReadMerge();
    DecideMerge();
    FilterMerge();
  }
}
