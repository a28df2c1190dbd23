/**
 * The scanner on the tree of `InitialScenarios`, for a missing path several
 * levels below `a4` with `force`: its empty parents are still deleted.  The
 * facts about the `a` chain proved here are shared with `MergeScenarios`.
 */
module ParentScenarios {
  import opened Wrappers
  import opened Paths
  import opened Indexer
  import opened Batch
  import opened Resolver
  import opened SubPaths
  import opened RmUp
  import opened InitialScenarios

  // Each fact about a literal path is proved on its own.

  lemma AtStop()
    ensures !BelowStop(T, T)
  {
  }

  lemma UpA1()
    ensures BelowStop(T, A1) && Parent(A1) == T && Basename(A1) == "a1"
  {
    ChildPath(T, "a1", A1);
  }

  lemma UpA2()
    ensures BelowStop(T, A2) && Parent(A2) == A1 && Basename(A2) == "a2" && Join(A1, "a2") == A2
  {
    ChildPath(A1, "a2", A2);
  }

  lemma UpA3()
    ensures BelowStop(T, A3) && Parent(A3) == A2 && Basename(A3) == "a3" && Join(A2, "a3") == A3
  {
    ChildPath(A2, "a3", A3);
  }

  lemma UpA4()
    ensures BelowStop(T, A4) && Parent(A4) == A3 && Basename(A4) == "a4" && Join(A3, "a4") == A4
  {
    ChildPath(A3, "a4", A4);
  }

  /** The listings of the `a` chain. */
  lemma ListingsA()
    ensures ReadDir(Tree, A1) == Listed([Junk, DirEntry("a2", true)])
    ensures ReadDir(Tree, A2) == Listed([DirEntry("a2.txt", false), Junk, DirEntry("a3", true)])
    ensures ReadDir(Tree, A3) == Listed([Junk, DirEntry("a4", true)])
    ensures ReadDir(Tree, A4) == Listed([Junk])
    ensures ReadDir(Tree, A2Txt) == Failed(ENOTDIR)
  {
  }

  /** The listing of `a3` holds only junk besides `a4`. */
  lemma NamesA3()
    ensures DirNames([Junk, DirEntry("a4", true)]) == {"a4"}
    ensures FileNames([Junk, DirEntry("a4", true)], Tree.isJunk) == {}
  {
    NamesExtend([], Junk, Tree.isJunk);
    assert [] + [Junk] == [Junk];
    NamesExtend([Junk], DirEntry("a4", true), Tree.isJunk);
    assert [Junk] + [DirEntry("a4", true)] == [Junk, DirEntry("a4", true)];
  }

  /** The listing of `a4` holds only junk. */
  lemma NamesA4()
    ensures DirNames([Junk]) == {} && FileNames([Junk], Tree.isJunk) == {}
  {
    NamesExtend([], Junk, Tree.isJunk);
    assert [] + [Junk] == [Junk];
  }

  /** The only child directory each listing of the chain names. */
  lemma KidsA1()
    ensures forall e :: e in [Junk, DirEntry("a2", true)] && e.isDirectory ==> Join(A1, e.name) == A2
  {
    UpA2();
  }

  lemma KidsA2()
    ensures forall e :: e in [DirEntry("a2.txt", false), Junk, DirEntry("a3", true)] && e.isDirectory ==> Join(A2, e.name) == A3
  {
    UpA3();
  }

  lemma KidsA3()
    ensures forall e :: e in [Junk, DirEntry("a4", true)] && e.isDirectory ==> Join(A3, e.name) == A4
  {
    UpA4();
  }

  // ---------------------------------------------------------------------------
  // A missing path below `a4`, with `force`: reading `a4/x/y/z` reserves the
  // path and every ancestor up to `a1`.  The listings of `a1` to `a4` succeed,
  // those of `x` and `y` fail with ENOENT as non-initial levels, so their
  // nodes stay PROCESSING, and the input's own ENOENT is tolerated and its
  // node deleted.  The walk passes over `z`, `y` and `x`, deletes the empty
  // `a4` and then `a3`, which has become empty, and stops at `a2`, which
  // still holds the file `a2.txt`.

  const X: Path := "/t/a1/a2/a3/a4/x"
  const Y: Path := "/t/a1/a2/a3/a4/x/y"
  const Z: Path := "/t/a1/a2/a3/a4/x/y/z"

  const Forced := Options(T, true, false)

  lemma UpX()
    ensures BelowStop(T, X) && Parent(X) == A4
  {
    ChildPath(A4, "x", X);
  }

  lemma UpY()
    ensures BelowStop(T, Y) && Parent(Y) == X
  {
    ChildPath(X, "y", Y);
  }

  lemma UpZ()
    ensures BelowStop(T, Z) && Parent(Z) == Y
  {
    ChildPath(Y, "z", Z);
  }

  lemma MissingXYZ()
    ensures ReadDir(Tree, X) == Failed(ENOENT) && ReadDir(Tree, Y) == Failed(ENOENT) && ReadDir(Tree, Z) == Failed(ENOENT)
  {
  }

  // The index as the reservations go up, then as the listings come back down.

  ghost const E1: IndexMap := map[Z := Reservation]
  ghost const E2: IndexMap := E1[Y := Reservation]
  ghost const E3: IndexMap := E2[X := Reservation]
  ghost const E4: IndexMap := E3[A4 := Reservation]
  ghost const E5: IndexMap := E4[A3 := Reservation]
  ghost const E6: IndexMap := E5[A2 := Reservation]
  ghost const E7: IndexMap := E6[A1 := Reservation]
  ghost const F1: IndexMap := E7[A1 := Dir(Ready, {"a2"}, {})]
  ghost const F2: IndexMap := F1[A2 := Dir(Ready, {"a3"}, {"a2.txt"})]
  ghost const F3: IndexMap := F2[A3 := Dir(Ready, {"a4"}, {})]
  ghost const F4: IndexMap := F3[A4 := Dir(Ready, {}, {})]
  ghost const Left: IndexMap := F4 - {Z}

  /** Each level is unreserved when its call starts. */
  lemma FreshMissing()
    ensures !Reserved(E6, A1) && !Reserved(E5, A2) && !Reserved(E4, A3) && !Reserved(E3, A4)
    ensures !Reserved(E2, X) && !Reserved(E1, Y) && !Reserved(map[], Z) && map[][Z := Reservation] == E1
  {
  }

  /** The child directory each listing names already has a node. */
  lemma PresentMissing()
    ensures A2 in E7 && A3 in F1 && A4 in F2
  {
  }

  lemma ReadMissingA1()
    ensures ReadUp(Forced, Tree, E6, A1, false) == Indexed(F1, Pass)
  {
    AtStop();
    UpA1();
    KidsA1();
    PresentMissing();
    FreshMissing();
    ListingsA();
    NamesA1();
    ReadUpListedLevel(Forced, Tree, E6, A1, false, T, [Junk, DirEntry("a2", true)], E7);
  }

  lemma ReadMissingA2()
    ensures ReadUp(Forced, Tree, E5, A2, false) == Indexed(F2, Pass)
  {
    UpA2();
    KidsA2();
    PresentMissing();
    FreshMissing();
    ListingsA();
    ReadMissingA1();
    NamesA2();
    ReadUpListedLevel(Forced, Tree, E5, A2, false, A1, [DirEntry("a2.txt", false), Junk, DirEntry("a3", true)], F1);
  }

  lemma ReadMissingA3()
    ensures ReadUp(Forced, Tree, E4, A3, false) == Indexed(F3, Pass)
  {
    UpA3();
    KidsA3();
    PresentMissing();
    FreshMissing();
    ListingsA();
    ReadMissingA2();
    NamesA3();
    ReadUpListedLevel(Forced, Tree, E4, A3, false, A2, [Junk, DirEntry("a4", true)], F2);
  }

  lemma ReadMissingA4()
    ensures ReadUp(Forced, Tree, E3, A4, false) == Indexed(F4, Pass)
  {
    UpA4();
    FreshMissing();
    ListingsA();
    ReadMissingA3();
    NamesA4();
    ReadUpListedLevel(Forced, Tree, E3, A4, false, A3, [Junk], F3);
  }

  /** `x` and `y` fail as non-initial levels: their calls reject, and their nodes stay. */
  lemma ReadMissingX()
    ensures ReadUp(Forced, Tree, E2, X, false) == Indexed(F4, Fail(ENOENT))
  {
    UpX();
    FreshMissing();
    MissingXYZ();
    ReadMissingA4();
    ReadUpFailedLevel(Forced, Tree, E2, X, false, A4, ENOENT, F4);
  }

  lemma ReadMissingY()
    ensures ReadUp(Forced, Tree, E1, Y, false) == Indexed(F4, Fail(ENOENT))
  {
    UpY();
    FreshMissing();
    MissingXYZ();
    ReadMissingX();
    ReadUpFailedLevel(Forced, Tree, E1, Y, false, X, ENOENT, F4);
  }

  /** The input's own ENOENT is tolerated under `force`, and its node deleted. */
  lemma ReadMissingZ()
    ensures ReadAll(Forced, Tree, map[], [Z]) == Indexed(Left, Pass)
  {
    UpZ();
    FreshMissing();
    MissingXYZ();
    ReadMissingY();
    ReadUpFailedLevel(Forced, Tree, map[], Z, true, Y, ENOENT, F4);
    ReadAllSingle(Forced, Tree, map[], Z);
  }

  // The walk from `z`.

  ghost const W0 := Memory(Left, {}, {})
  ghost const W1 := Memory(Unlink(Left - {A4}, A3, "a4", true), {}, {A4})
  ghost const W2 := Memory(Unlink(W1.index - {A3}, A2, "a3", true), {}, {A4, A3})

  lemma LeftMissing()
    ensures Z !in Left && Left[Y] == Reservation && Left[X] == Reservation
  {
  }

  lemma LeftReady()
    ensures Left[A4] == Dir(Ready, {}, {}) && Left[A3] == Dir(Ready, {"a4"}, {})
  {
  }

  lemma AfterA4()
    ensures A3 in W1.index && W1.index[A3] == Dir(Ready, {}, {})
    ensures A2 in W1.index && W1.index[A2] == Dir(Ready, {"a3"}, {"a2.txt"})
    ensures A1 in W1.index && W1.index[A1] == Dir(Ready, {"a2"}, {})
  {
    LeftReady();
    assert {"a4"} - {"a4"} == {};
  }

  lemma AfterA3()
    ensures A2 in W2.index && W2.index[A2] == Dir(Ready, {}, {"a2.txt"})
    ensures A1 in W2.index && W2.index[A1] == Dir(Ready, {"a2"}, {})
  {
    AfterA4();
    assert {"a3"} - {"a3"} == {} && {"a2.txt"} - {"a3"} == {"a2.txt"};
  }

  /** `x`, `y` and `z` pass; `a4` and then `a3` are empty and deleted; `a2` and `a1` are not empty. */
  lemma StepsMissing()
    ensures Step(Forced, W0, Z, true) == Decision(W0, None)
    ensures Step(Forced, W0, Y, false) == Decision(W0, None)
    ensures Step(Forced, W0, X, false) == Decision(W0, None)
    ensures Step(Forced, W2, A2, false) == Decision(W2, None)
    ensures Step(Forced, W2, A1, false) == Decision(W2, None)
  {
    LeftMissing();
    StepWhenNeither(Forced, W0, Z, true);
    StepWhenNeither(Forced, W0, Y, false);
    StepWhenNeither(Forced, W0, X, false);
    AfterA3();
    assert "a2.txt" in W2.index[A2].files && "a2" in W2.index[A1].dirs;
    StepWhenNeither(Forced, W2, A2, false);
    StepWhenNeither(Forced, W2, A1, false);
  }

  lemma StepMissingA4()
    ensures Step(Forced, W0, A4, false) == Decision(W1, Some(Entry(A4, true)))
  {
    UpA4();
    LeftReady();
    StepDirAt(Forced, W0, A4, false, A3, "a4");
  }

  lemma StepMissingA3()
    ensures Step(Forced, W1, A3, false) == Decision(W2, Some(Entry(A3, true)))
  {
    UpA3();
    AfterA4();
    StepDirAt(Forced, W1, A3, false, A2, "a3");
  }

  lemma WalkMissingA1()
    ensures TopWalk(Forced, W2, A1, false, Some(Entry(A3, true))) == Walk(W2, Some(Entry(A3, true)))
  {
    AtStop();
    UpA1();
    StepsMissing();
    WalkOn(Forced, W2, A1, false, Some(Entry(A3, true)), T, Decision(W2, None));
  }

  lemma WalkMissingA2()
    ensures TopWalk(Forced, W2, A2, false, Some(Entry(A3, true))) == Walk(W2, Some(Entry(A3, true)))
  {
    UpA2();
    StepsMissing();
    WalkOn(Forced, W2, A2, false, Some(Entry(A3, true)), A1, Decision(W2, None));
    WalkMissingA1();
  }

  lemma WalkMissingA3()
    ensures TopWalk(Forced, W1, A3, false, Some(Entry(A4, true))) == Walk(W2, Some(Entry(A3, true)))
  {
    UpA3();
    StepMissingA3();
    WalkOn(Forced, W1, A3, false, Some(Entry(A4, true)), A2, Decision(W2, Some(Entry(A3, true))));
    WalkMissingA2();
  }

  lemma WalkMissingA4()
    ensures TopWalk(Forced, W0, A4, false, None) == Walk(W2, Some(Entry(A3, true)))
  {
    UpA4();
    StepMissingA4();
    WalkOn(Forced, W0, A4, false, None, A3, Decision(W1, Some(Entry(A4, true))));
    WalkMissingA3();
  }

  lemma WalkMissingX()
    ensures TopWalk(Forced, W0, X, false, None) == Walk(W2, Some(Entry(A3, true)))
  {
    UpX();
    StepsMissing();
    WalkOn(Forced, W0, X, false, None, A4, Decision(W0, None));
    WalkMissingA4();
  }

  lemma WalkMissingY()
    ensures TopWalk(Forced, W0, Y, false, None) == Walk(W2, Some(Entry(A3, true)))
  {
    UpY();
    StepsMissing();
    WalkOn(Forced, W0, Y, false, None, X, Decision(W0, None));
    WalkMissingX();
  }

  lemma WalkMissingZ()
    ensures TopWalk(Forced, W0, Z, true, None) == Walk(W2, Some(Entry(A3, true)))
  {
    UpZ();
    StepsMissing();
    WalkOn(Forced, W0, Z, true, None, Y, Decision(W0, None));
    WalkMissingY();
  }

  method DeleteParentsOfMissing() returns (r: Result<seq<Entry>, ErrorCode>)
    ensures r == Success([Entry(A3, true)])
  {
    var scanner := new Scanner(Forced);
    r := scanner.GetPathsToDelete(Tree, [Z]);
    ReadMissingZ();
    WalkMissingZ();
    DecideOne(Forced, W0, Z);
    SingleKept(Entry(A3, true));
  }
}
