/**
 * The batch read of `getPathsToDelete`: `Promise.all` over one `readDirUp`
 * call per input.  Each call runs synchronously up to its `await`, so every
 * input's chain is reserved before any listing is acted on; the calls then
 * resume, each after the ancestors it started.
 */
module Batch {
  import opened Paths
  import opened Indexer

  /** A `readDirUp` call that got past its early return: its path, and whether it is an input's. */
  datatype Job = Job(path: Path, isInitial: bool)

  /** The index after the synchronous parts of some calls, and the calls they started, in order. */
  datatype Plan = Plan(index: IndexMap, jobs: seq<Job>)

  /**
   * The synchronous part of `readDirUp(path)`, up to its `await`: the path and
   * each ancestor below it up to the first reserved one are reserved, bottom first.
   */
  function ReserveChain(o: Options, idx: IndexMap, path: Path, isInitial: bool): Plan
    requires |o.stop| > 0
    decreases |path|
  {
    if Reserved(idx, path) || !BelowStop(o.stop, path) then Plan(idx, [])
    else
      ParentShorter(o.stop, path);
      var up := ReserveChain(o, idx[path := Reservation], Parent(path), false);
      Plan(up.index, [Job(path, isInitial)] + up.jobs)
  }

  /** `absolutePaths.map((path) => this.readDirUp(path))`: the synchronous parts of all inputs, in order. */
  function ReserveAll(o: Options, idx: IndexMap, paths: seq<Path>): Plan
    requires |o.stop| > 0
    decreases |paths|
  {
    if paths == [] then Plan(idx, [])
    else
      var first := ReserveChain(o, idx, paths[0], true);
      var rest := ReserveAll(o, first.index, paths[1..]);
      Plan(rest.index, first.jobs + rest.jobs)
  }

  /** What a started call does after its `await`, except the delete after a tolerated failure. */
  function Resume(env: Env, idx: IndexMap, j: Job): IndexMap
  {
    match ReadDir(env, j.path)
    case Listed(es) => Populate(idx, j.path, es, env.isJunk)
    case Failed(_) => idx
  }

  /**
   * The started calls resume from the last one back to the first: a call
   * starts its parent's call after itself, and waits for it.
   */
  function Settle(env: Env, idx: IndexMap, jobs: seq<Job>): IndexMap
    decreases |jobs|
  {
    if jobs == [] then idx else Resume(env, Settle(env, idx, jobs[1..]), jobs[0])
  }

  /** The call's own listing failed and the failure is tolerated, so its node is deleted. */
  predicate Swallowed(o: Options, env: Env, j: Job)
  {
    ReadDir(env, j.path).Failed? && Tolerated(o, ReadDir(env, j.path).code, j.isInitial)
  }

  /** An input's call whose own listing failed past tolerance: `Promise.all` rejects. */
  predicate Rejects(o: Options, env: Env, j: Job)
  {
    j.isInitial && ReadDir(env, j.path).Failed? && !Tolerated(o, ReadDir(env, j.path).code, true)
  }

  /** The paths whose nodes the tolerated failures delete. */
  function Removed(o: Options, env: Env, jobs: seq<Job>): set<Path>
  {
    set j | j in jobs && Swallowed(o, env, j) :: j.path
  }

  /** The rejection of the batch: the first input's call, in order, that rejects. */
  function FirstRejection(o: Options, env: Env, jobs: seq<Job>): Outcome
    decreases |jobs|
  {
    if jobs == [] then Pass
    else if Rejects(o, env, jobs[0]) then Fail(ReadDir(env, jobs[0].path).code)
    else FirstRejection(o, env, jobs[1..])
  }

  /**
   * `await Promise.all(absolutePaths.map((path) => this.readDirUp(path)))`:
   * every input's call runs up to its `await`, reserving its chain, before any
   * listing is acted on; then the started calls resume, each after its
   * ancestors; the nodes of tolerated failures are deleted last.  This is one
   * schedule the source can take; the batch rejects with the first rejecting
   * input's error.
   */
  function ReadAll(o: Options, env: Env, idx: IndexMap, paths: seq<Path>): Indexed
    requires |o.stop| > 0
  {
    var plan := ReserveAll(o, idx, paths);
    Indexed(Settle(env, plan.index, plan.jobs) - Removed(o, env, plan.jobs), FirstRejection(o, env, plan.jobs))
  }

  // ---------------------------------------------------------------------------
  // Properties

  /** The paths of the started calls. */
  function Started(jobs: seq<Job>): set<Path>
  {
    set j | j in jobs :: j.path
  }

  /** The paths of the started calls whose own listing succeeds. */
  function Populated(env: Env, jobs: seq<Job>): set<Path>
  {
    set j | j in jobs && ReadDir(env, j.path).Listed? :: j.path
  }

  /** The READY node a successful listing of `p` leaves. */
  function ListedNode(env: Env, p: Path): Dir
    requires ReadDir(env, p).Listed?
  {
    Dir(Ready, DirNames(ReadDir(env, p).entries), FileNames(ReadDir(env, p).entries, env.isJunk))
  }

  /** `r` is `idx` with a reservation at every started path, and no started path was reserved in `idx`. */
  ghost predicate Reserves(idx: IndexMap, jobs: seq<Job>, r: IndexMap)
  {
    && (forall j :: j in jobs ==> !Reserved(idx, j.path))
    && (forall k :: k in r <==> k in idx || k in Started(jobs))
    && (forall k :: k in r ==> r[k] == if k in Started(jobs) then Reservation else idx[k])
  }

  /** Every reserved path's parent is reserved too, as long as the parent is below stop. */
  ghost predicate ChainClosed(stop: Path, idx: IndexMap)
  {
    forall k {:trigger Parent(k)} :: Reserved(idx, k) && BelowStop(stop, Parent(k)) ==> Reserved(idx, Parent(k))
  }

  lemma ReservesCompose(idx: IndexMap, a: seq<Job>, m: IndexMap, b: seq<Job>, r: IndexMap)
    requires Reserves(idx, a, m) && Reserves(m, b, r)
    ensures Reserves(idx, a + b, r)
  {
    assert forall j :: j in a + b <==> j in a || j in b;
    assert Started(a + b) == Started(a) + Started(b);
  }

  /** Reservations only add reserved paths: the paths reserved afterwards are the old ones and the started ones. */
  lemma ReservesReserved(idx: IndexMap, jobs: seq<Job>, r: IndexMap)
    requires Reserves(idx, jobs, r)
    ensures forall k :: Reserved(r, k) <==> Reserved(idx, k) || k in Started(jobs)
  {
  }

  /**
   * The synchronous part of one call reserves exactly the paths it starts,
   * which lie on the chain from the path to stop; only the first is initial,
   * and afterwards the path is reserved.
   */
  lemma {:induction false} ReserveChainEffect(o: Options, idx: IndexMap, path: Path, isInitial: bool)
    requires |o.stop| > 0
    ensures var c := ReserveChain(o, idx, path, isInitial);
      && Reserves(idx, c.jobs, c.index)
      && (forall j :: j in c.jobs ==> j.path in Chain(o.stop, path))
      && (c.jobs != [] ==> c.jobs[0] == Job(path, isInitial))
      && (forall i :: 0 < i < |c.jobs| ==> !c.jobs[i].isInitial)
      && (BelowStop(o.stop, path) ==> Reserved(c.index, path))
    decreases |path|
  {
    if !(Reserved(idx, path) || !BelowStop(o.stop, path)) {
      ParentShorter(o.stop, path);
      var idx1 := idx[path := Reservation];
      var up := ReserveChain(o, idx1, Parent(path), false);
      ReserveChainEffect(o, idx1, Parent(path), false);
      var one := [Job(path, isInitial)];
      assert Reserves(idx, one + up.jobs, up.index) by {
        assert Started(one) == {path};
        ReservesCompose(idx, one, idx1, up.jobs, up.index);
      }
      assert Reserved(up.index, path) by {
        ReservesReserved(idx1, up.jobs, up.index);
      }
      assert Chain(o.stop, path) == [path] + Chain(o.stop, Parent(path));
    }
  }

  /** The synchronous parts of all inputs: only inputs start initial calls, and every input below stop ends reserved. */
  lemma {:induction false} ReserveAllEffect(o: Options, idx: IndexMap, paths: seq<Path>)
    requires |o.stop| > 0
    ensures var plan := ReserveAll(o, idx, paths);
      && Reserves(idx, plan.jobs, plan.index)
      && (forall j :: j in plan.jobs ==> BelowStop(o.stop, j.path))
      && (forall j :: j in plan.jobs && j.isInitial ==> j.path in paths)
      && (forall p :: p in paths && BelowStop(o.stop, p) ==> Reserved(plan.index, p))
    decreases |paths|
  {
    if paths != [] {
      var first := ReserveChain(o, idx, paths[0], true);
      ReserveChainEffect(o, idx, paths[0], true);
      var rest := ReserveAll(o, first.index, paths[1..]);
      ReserveAllEffect(o, first.index, paths[1..]);
      ReservesCompose(idx, first.jobs, first.index, rest.jobs, rest.index);
      ReservesReserved(first.index, rest.jobs, rest.index);
      forall j | j in first.jobs && j.isInitial ensures j.path == paths[0] {
        var i :| 0 <= i < |first.jobs| && first.jobs[i] == j;
      }
      assert paths == [paths[0]] + paths[1..];
      assert forall j :: j in first.jobs + rest.jobs <==> j in first.jobs || j in rest.jobs;
    }
  }

  /** One level of the synchronous part: reserve the path and go on at its parent. */
  lemma ReserveChainStep(o: Options, idx: IndexMap, path: Path, isInitial: bool, parent: Path)
    requires |o.stop| > 0 && !Reserved(idx, path) && BelowStop(o.stop, path) && Parent(path) == parent
    ensures var up := ReserveChain(o, idx[path := Reservation], parent, false);
      ReserveChain(o, idx, path, isInitial) == Plan(up.index, [Job(path, isInitial)] + up.jobs)
  {
  }

  lemma ReserveAllCons(o: Options, idx: IndexMap, p: Path, rest: seq<Path>)
    requires |o.stop| > 0
    ensures var c := ReserveChain(o, idx, p, true);
      var r := ReserveAll(o, c.index, rest);
      ReserveAll(o, idx, [p] + rest) == Plan(r.index, c.jobs + r.jobs)
  {
    assert ([p] + rest)[0] == p && ([p] + rest)[1..] == rest;
  }

  /** Reserving one more input extends the plan of the inputs before it. */
  lemma {:induction false} ReserveAllSnoc(o: Options, idx: IndexMap, paths: seq<Path>, p: Path)
    requires |o.stop| > 0
    ensures var a := ReserveAll(o, idx, paths);
      var c := ReserveChain(o, a.index, p, true);
      ReserveAll(o, idx, paths + [p]) == Plan(c.index, a.jobs + c.jobs)
    decreases |paths|
  {
    if paths == [] {
      assert [] + [p] == [p];
      assert [p][1..] == [];
    } else {
      assert (paths + [p])[1..] == paths[1..] + [p];
      ReserveAllSnoc(o, ReserveChain(o, idx, paths[0], true).index, paths[1..], p);
    }
  }

  lemma {:induction false} ReserveChainCloses(o: Options, idx: IndexMap, path: Path, isInitial: bool)
    requires |o.stop| > 0
    requires forall k {:trigger Parent(k)} ::
      Reserved(idx, k) && BelowStop(o.stop, Parent(k)) && Parent(k) != path ==> Reserved(idx, Parent(k))
    ensures ChainClosed(o.stop, ReserveChain(o, idx, path, isInitial).index)
    decreases |path|
  {
    if !(Reserved(idx, path) || !BelowStop(o.stop, path)) {
      ParentShorter(o.stop, path);
      var idx1 := idx[path := Reservation];
      forall k | Reserved(idx1, k) && BelowStop(o.stop, Parent(k)) && Parent(k) != Parent(path)
        ensures Reserved(idx1, Parent(k))
      {
        if k != path && Parent(k) != path {
          assert Reserved(idx, k);
        }
      }
      ReserveChainCloses(o, idx1, Parent(path), false);
    }
  }

  /** The reservations of a batch keep every reserved path's ancestors reserved. */
  lemma {:induction false} ReserveAllCloses(o: Options, idx: IndexMap, paths: seq<Path>)
    requires |o.stop| > 0 && ChainClosed(o.stop, idx)
    ensures ChainClosed(o.stop, ReserveAll(o, idx, paths).index)
    decreases |paths|
  {
    if paths != [] {
      ReserveChainCloses(o, idx, paths[0], true);
      ReserveAllCloses(o, ReserveChain(o, idx, paths[0], true).index, paths[1..]);
    }
  }

  /** In a closed index, a reserved path's whole chain to stop is reserved. */
  lemma {:induction false} ReservedChain(stop: Path, idx: IndexMap, k: Path)
    requires |stop| > 0 && ChainClosed(stop, idx) && Reserved(idx, k)
    ensures forall q :: q in Chain(stop, k) ==> Reserved(idx, q)
    decreases |k|
  {
    if BelowStop(stop, k) {
      ParentShorter(stop, k);
      if BelowStop(stop, Parent(k)) {
        assert Reserved(idx, Parent(k));
        ReservedChain(stop, idx, Parent(k));
      }
      assert Chain(stop, k) == [k] + Chain(stop, Parent(k));
    }
  }

  /**
   * The continuations: every node is kept, a started path whose listing
   * succeeds ends READY with exactly its names, a node no successful listing
   * is about keeps its value, and every other new node is a placeholder.
   */
  lemma {:induction false} SettleEffect(env: Env, idx: IndexMap, jobs: seq<Job>)
    ensures var s := Settle(env, idx, jobs);
      && (forall k :: k in idx ==> k in s)
      && (forall k :: k in s && k !in idx && k !in Started(jobs) ==> s[k] == Placeholder)
      && (forall k :: k in idx && k !in Populated(env, jobs) ==> s[k] == idx[k])
      && (forall k :: k in Populated(env, jobs) ==> ReadDir(env, k).Listed? && k in s && s[k] == ListedNode(env, k))
    decreases |jobs|
  {
    if jobs != [] {
      var j := jobs[0];
      var s1 := Settle(env, idx, jobs[1..]);
      SettleEffect(env, idx, jobs[1..]);
      assert jobs == [j] + jobs[1..];
      assert forall x :: x in jobs <==> x == j || x in jobs[1..];
      assert Started(jobs) == {j.path} + Started(jobs[1..]);
      assert Populated(env, jobs) == (if ReadDir(env, j.path).Listed? then {j.path} else {}) + Populated(env, jobs[1..]);
      match ReadDir(env, j.path)
      case Listed(es) =>
        AddPlaceholdersEffect(s1, j.path, es);
      case Failed(_) =>
    }
  }

  /** One more continuation whose listing names only directories that already have nodes. */
  lemma SettleKnownStep(env: Env, idx: IndexMap, jobs: seq<Job>, i: nat, before: IndexMap, es: seq<DirEntry>)
    requires i < |jobs| && Settle(env, idx, jobs[i + 1..]) == before
    requires ReadDir(env, jobs[i].path) == Listed(es)
    requires forall e :: e in es && e.isDirectory ==> Join(jobs[i].path, e.name) in before
    ensures Settle(env, idx, jobs[i..]) == before[jobs[i].path := Dir(Ready, DirNames(es), FileNames(es, env.isJunk))]
  {
    assert jobs[i..][1..] == jobs[i + 1..];
    PopulateKnownChildren(before, jobs[i].path, es, env.isJunk);
  }

  /** `SettleKnownStep`, on a job put in front of the later ones. */
  lemma SettleCons(env: Env, idx: IndexMap, j: Job, rest: seq<Job>, before: IndexMap, es: seq<DirEntry>)
    requires Settle(env, idx, rest) == before && ReadDir(env, j.path) == Listed(es)
    requires forall e :: e in es && e.isDirectory ==> Join(j.path, e.name) in before
    ensures Settle(env, idx, [j] + rest) == before[j.path := Dir(Ready, DirNames(es), FileNames(es, env.isJunk))]
  {
    assert ([j] + rest)[1..] == rest;
    PopulateKnownChildren(before, j.path, es, env.isJunk);
  }

  /** When every started call lists successfully, nothing is deleted and the batch passes. */
  lemma ReadAllListed(o: Options, env: Env, idx: IndexMap, paths: seq<Path>, plan: Plan)
    requires |o.stop| > 0 && plan == ReserveAll(o, idx, paths)
    requires forall j :: j in plan.jobs ==> ReadDir(env, j.path).Listed?
    ensures ReadAll(o, env, idx, paths) == Indexed(Settle(env, plan.index, plan.jobs), Pass)
  {
    FirstRejectionPass(o, env, plan.jobs);
    assert Removed(o, env, plan.jobs) == {};
  }

  lemma {:induction false} SettleBelowStop(stop: Path, env: Env, idx: IndexMap, jobs: seq<Job>)
    requires AllBelowStop(stop, idx) && forall j :: j in jobs ==> BelowStop(stop, j.path)
    ensures AllBelowStop(stop, Settle(env, idx, jobs))
    decreases |jobs|
  {
    if jobs != [] {
      var p := jobs[0].path;
      assert forall x :: x in jobs[1..] ==> x in jobs;
      SettleBelowStop(stop, env, idx, jobs[1..]);
      var s1 := Settle(env, idx, jobs[1..]);
      match ReadDir(env, p)
      case Listed(es) =>
        AddPlaceholdersEffect(s1, p, es);
        forall n | n in DirNames(es) ensures BelowStop(stop, Join(p, n)) {
          JoinBelowStop(stop, p, n);
        }
      case Failed(_) =>
    }
  }

  /** A batch read keeps the index below stop. */
  lemma ReadAllBelowStop(o: Options, env: Env, idx: IndexMap, paths: seq<Path>)
    requires |o.stop| > 0 && AllBelowStop(o.stop, idx)
    ensures AllBelowStop(o.stop, ReadAll(o, env, idx, paths).index)
  {
    var plan := ReserveAll(o, idx, paths);
    ReserveAllEffect(o, idx, paths);
    SettleBelowStop(o.stop, env, plan.index, plan.jobs);
  }

  /** The batch passes exactly when no input's call rejects. */
  lemma {:induction false} FirstRejectionPass(o: Options, env: Env, jobs: seq<Job>)
    ensures FirstRejection(o, env, jobs) == Pass <==> forall j :: j in jobs ==> !Rejects(o, env, j)
    ensures FirstRejection(o, env, jobs).Fail? ==>
      exists j :: j in jobs && Rejects(o, env, j) && FirstRejection(o, env, jobs).code == ReadDir(env, j.path).code
    decreases |jobs|
  {
    if jobs != [] {
      FirstRejectionPass(o, env, jobs[1..]);
      assert jobs == [jobs[0]] + jobs[1..];
      assert forall x :: x in jobs <==> x == jobs[0] || x in jobs[1..];
    }
  }

  lemma {:induction false} FirstRejectionSnoc(o: Options, env: Env, jobs: seq<Job>, j: Job)
    ensures FirstRejection(o, env, jobs + [j]) ==
      if FirstRejection(o, env, jobs).Fail? then FirstRejection(o, env, jobs)
      else if Rejects(o, env, j) then Fail(ReadDir(env, j.path).code) else Pass
    decreases |jobs|
  {
    if jobs == [] {
      assert [] + [j] == [j];
      assert [j][1..] == [];
    } else {
      assert (jobs + [j])[0] == jobs[0];
      assert (jobs + [j])[1..] == jobs[1..] + [j];
      FirstRejectionSnoc(o, env, jobs[1..], j);
    }
  }

  lemma RemovedSnoc(o: Options, env: Env, jobs: seq<Job>, j: Job)
    ensures Removed(o, env, jobs + [j]) == Removed(o, env, jobs) + (if Swallowed(o, env, j) then {j.path} else {})
  {
    assert forall x :: x in jobs + [j] <==> x in jobs || x == j;
  }

  /**
   * One `readDirUp` call awaited on its own is the same two phases on its
   * chain: the recursive `ReadUp` and the batch agree on a single call.
   */
  lemma {:induction false} ReadUpInPhases(o: Options, env: Env, idx: IndexMap, path: Path, isInitial: bool)
    requires |o.stop| > 0
    ensures var c := ReserveChain(o, idx, path, isInitial);
      ReadUp(o, env, idx, path, isInitial).index == Settle(env, c.index, c.jobs) - Removed(o, env, c.jobs)
    ensures var c := ReserveChain(o, idx, path, isInitial);
      isInitial ==> ReadUp(o, env, idx, path, isInitial).outcome == FirstRejection(o, env, c.jobs)
    decreases |path|
  {
    if Reserved(idx, path) || !BelowStop(o.stop, path) {
      assert Removed(o, env, []) == {};
    } else {
      ParentShorter(o.stop, path);
      var idx1 := idx[path := Reservation];
      ReadUpInPhases(o, env, idx1, Parent(path), false);
      PhasesStep(o, env, idx1, Parent(path), Job(path, isInitial));
      ReadUpUnfolds(o, env, idx, path, isInitial);
    }
  }

  /** The call `me` followed by the non-initial calls it starts, in both phases. */
  lemma PhasesStep(o: Options, env: Env, idx: IndexMap, parent: Path, me: Job)
    requires |o.stop| > 0
    ensures var up := ReserveChain(o, idx, parent, false);
      var jobs := [me] + up.jobs;
      && Settle(env, up.index, up.jobs) - Removed(o, env, up.jobs) == Settle(env, up.index, up.jobs)
      && Settle(env, up.index, jobs) == Resume(env, Settle(env, up.index, up.jobs), me)
      && Removed(o, env, jobs) == (if Swallowed(o, env, me) then {me.path} else {})
      && FirstRejection(o, env, jobs) == (if Rejects(o, env, me) then Fail(ReadDir(env, me.path).code) else Pass)
  {
    var up := ReserveChain(o, idx, parent, false);
    ReserveChainEffect(o, idx, parent, false);
    AncestorJobsQuiet(o, env, up.jobs);
    ConsPhases(o, env, up.index, me, up.jobs);
  }

  /** A call in front of calls that neither delete nor reject. */
  lemma ConsPhases(o: Options, env: Env, base: IndexMap, me: Job, rest: seq<Job>)
    requires Removed(o, env, rest) == {} && FirstRejection(o, env, rest) == Pass
    ensures Settle(env, base, [me] + rest) == Resume(env, Settle(env, base, rest), me)
    ensures Removed(o, env, [me] + rest) == (if Swallowed(o, env, me) then {me.path} else {})
    ensures FirstRejection(o, env, [me] + rest) == (if Rejects(o, env, me) then Fail(ReadDir(env, me.path).code) else Pass)
  {
    var jobs := [me] + rest;
    assert jobs[0] == me && jobs[1..] == rest;
    assert forall x :: x in jobs <==> x == me || x in rest;
  }

  /** Calls started by other calls are not initial: none of their failures is swallowed or rejects. */
  lemma AncestorJobsQuiet(o: Options, env: Env, jobs: seq<Job>)
    requires forall i :: 0 <= i < |jobs| ==> !jobs[i].isInitial
    ensures Removed(o, env, jobs) == {}
    ensures FirstRejection(o, env, jobs) == Pass
  {
    forall j | j in jobs ensures !j.isInitial {
      var i :| 0 <= i < |jobs| && jobs[i] == j;
    }
    FirstRejectionPass(o, env, jobs);
  }

  /** A batch of one input is one `readDirUp` call. */
  lemma ReadAllSingle(o: Options, env: Env, idx: IndexMap, p: Path)
    requires |o.stop| > 0
    ensures ReadAll(o, env, idx, [p]) == ReadUp(o, env, idx, p, true)
  {
    var c := ReserveChain(o, idx, p, true);
    assert [p][1..] == [];
    assert ReserveAll(o, idx, [p]) == Plan(c.index, c.jobs + []);
    assert c.jobs + [] == c.jobs;
    ReadUpInPhases(o, env, idx, p, true);
  }

  /** Giving an input a second time changes nothing: its path is already reserved. */
  lemma ReadAllRepeated(o: Options, env: Env, idx: IndexMap, paths: seq<Path>, p: Path)
    requires |o.stop| > 0 && p in paths
    ensures ReadAll(o, env, idx, paths + [p]) == ReadAll(o, env, idx, paths)
  {
    var a := ReserveAll(o, idx, paths);
    ReserveAllEffect(o, idx, paths);
    ReserveAllSnoc(o, idx, paths, p);
    assert ReserveChain(o, a.index, p, true) == Plan(a.index, []);
    assert a.jobs + [] == a.jobs;
  }

  /** Continuations only turn reserved nodes READY: the reserved paths stay the same. */
  lemma SettleReserved(env: Env, idx: IndexMap, jobs: seq<Job>)
    requires forall j :: j in jobs ==> Reserved(idx, j.path)
    ensures forall k :: Reserved(Settle(env, idx, jobs), k) <==> Reserved(idx, k)
  {
    SettleEffect(env, idx, jobs);
  }

  /** Only a call's own path can be swallowed: the calls it starts are not initial. */
  lemma ChainRemoved(o: Options, env: Env, idx: IndexMap, path: Path, isInitial: bool)
    requires |o.stop| > 0
    ensures Removed(o, env, ReserveChain(o, idx, path, isInitial).jobs) <= {path}
  {
    var c := ReserveChain(o, idx, path, isInitial);
    ReserveChainEffect(o, idx, path, isInitial);
    forall j | j in c.jobs && Swallowed(o, env, j) ensures j.path == path {
      var i :| 0 <= i < |c.jobs| && c.jobs[i] == j;
    }
  }

  /**
   * `readDirUp` indexes every ancestor up to stop, in a closed index: each one
   * has a node afterwards, and one that had no reservation and lists
   * successfully is READY with exactly its listing's names; so is the path
   * itself.
   */
  lemma ReadUpIndexesAncestors(o: Options, env: Env, idx: IndexMap, path: Path, isInitial: bool)
    requires |o.stop| > 0 && ChainClosed(o.stop, idx)
    ensures var r := ReadUp(o, env, idx, path, isInitial).index;
      forall q :: q in Chain(o.stop, Parent(path)) ==> q in r
    ensures var r := ReadUp(o, env, idx, path, isInitial).index;
      forall q :: q in Chain(o.stop, path) && !Reserved(idx, q) && ReadDir(env, q).Listed? ==>
        q in r && r[q] == ListedNode(env, q)
  {
    var c := ReserveChain(o, idx, path, isInitial);
    var r := ReadUp(o, env, idx, path, isInitial).index;
    ReadUpInPhases(o, env, idx, path, isInitial);
    if !BelowStop(o.stop, path) {
      NoChainAbove(o.stop, path);
    } else {
      ParentShorter(o.stop, path);
      assert Chain(o.stop, path) == [path] + Chain(o.stop, Parent(path));
      ReserveChainReservesChain(o, idx, path, isInitial);
      ChainRemoved(o, env, idx, path, isInitial);
      forall q | q in Chain(o.stop, Parent(path)) ensures q in r {
        assert |q| < |path| && q in Chain(o.stop, path);
        assert q in Settle(env, c.index, c.jobs) by {
          assert q in c.index;
          SettleEffect(env, c.index, c.jobs);
        }
      }
      ChainListedReady(o, env, idx, path, isInitial);
    }
  }

  /** The positions on the chain that had no reservation and list successfully end READY. */
  lemma ChainListedReady(o: Options, env: Env, idx: IndexMap, path: Path, isInitial: bool)
    requires |o.stop| > 0 && ChainClosed(o.stop, idx)
    ensures var r := ReadUp(o, env, idx, path, isInitial).index;
      forall q :: q in Chain(o.stop, path) && !Reserved(idx, q) && ReadDir(env, q).Listed? ==>
        q in r && r[q] == ListedNode(env, q)
  {
    var c := ReserveChain(o, idx, path, isInitial);
    ReadUpInPhases(o, env, idx, path, isInitial);
    ReserveChainReservesChain(o, idx, path, isInitial);
    ReserveChainEffect(o, idx, path, isInitial);
    ReservesReserved(idx, c.jobs, c.index);
    SettleEffect(env, c.index, c.jobs);
    forall q | q in Chain(o.stop, path) && !Reserved(idx, q) && ReadDir(env, q).Listed?
      ensures q in Populated(env, c.jobs) && q !in Removed(o, env, c.jobs)
    {
      var j :| j in c.jobs && j.path == q;
    }
  }

  /** A call from a closed index leaves its whole chain reserved. */
  lemma ReserveChainReservesChain(o: Options, idx: IndexMap, path: Path, isInitial: bool)
    requires |o.stop| > 0 && ChainClosed(o.stop, idx)
    ensures forall q :: q in Chain(o.stop, path) ==> Reserved(ReserveChain(o, idx, path, isInitial).index, q)
  {
    if BelowStop(o.stop, path) {
      ReserveChainEffect(o, idx, path, isInitial);
      ReserveChainCloses(o, idx, path, isInitial);
      ReservedChain(o.stop, ReserveChain(o, idx, path, isInitial).index, path);
    }
  }

  /** `readDirUp` keeps a closed index closed. */
  lemma ReadUpKeepsClosed(o: Options, env: Env, idx: IndexMap, path: Path, isInitial: bool)
    requires |o.stop| > 0 && ChainClosed(o.stop, idx)
    ensures ChainClosed(o.stop, ReadUp(o, env, idx, path, isInitial).index)
  {
    var c := ReserveChain(o, idx, path, isInitial);
    var r := ReadUp(o, env, idx, path, isInitial).index;
    ReadUpInPhases(o, env, idx, path, isInitial);
    ReserveChainEffect(o, idx, path, isInitial);
    ReserveChainCloses(o, idx, path, isInitial);
    ReservesReserved(idx, c.jobs, c.index);
    SettleReserved(env, c.index, c.jobs);
    ChainRemoved(o, env, idx, path, isInitial);
    forall k {:trigger Parent(k)} | Reserved(r, k) && BelowStop(o.stop, Parent(k))
      ensures Reserved(r, Parent(k))
    {
      assert Reserved(c.index, k);
      if Parent(k) == path && path in Removed(o, env, c.jobs) {
        var s :| s in c.jobs && s.path == path;
        if !Reserved(idx, k) {
          var j :| j in c.jobs && j.path == k;
          ParentShorter(o.stop, k);
        }
      }
    }
  }

  /**
   * After `Promise.all`, every position on an input's chain has a node, unless
   * it is itself an input whose tolerated failure deleted it; one that had no
   * reservation and lists successfully is READY with exactly its names.
   */
  lemma ReadAllIndexesChains(o: Options, env: Env, idx: IndexMap, paths: seq<Path>)
    requires |o.stop| > 0 && ChainClosed(o.stop, idx)
    ensures var r := ReadAll(o, env, idx, paths).index;
      forall p, q :: p in paths && q in Chain(o.stop, p) ==>
        q in r || (q in paths && Swallowed(o, env, Job(q, true)))
    ensures var r := ReadAll(o, env, idx, paths).index;
      forall p, q :: p in paths && q in Chain(o.stop, p) && !Reserved(idx, q) && ReadDir(env, q).Listed? ==>
        q in r && r[q] == ListedNode(env, q)
  {
    var plan := ReserveAll(o, idx, paths);
    var s := Settle(env, plan.index, plan.jobs);
    ReserveAllEffect(o, idx, paths);
    ReserveAllCloses(o, idx, paths);
    ReservesReserved(idx, plan.jobs, plan.index);
    SettleEffect(env, plan.index, plan.jobs);
    forall p, q | p in paths && q in Chain(o.stop, p) ensures Reserved(plan.index, q) {
      ReservedChain(o.stop, plan.index, p);
    }
    forall q | q in Removed(o, env, plan.jobs) ensures q in paths && Swallowed(o, env, Job(q, true)) {
      var j :| j in plan.jobs && Swallowed(o, env, j) && j.path == q;
      ToleratedTable(o, ReadDir(env, q).code, j.isInitial);
    }
    forall p, q | p in paths && q in Chain(o.stop, p) && !Reserved(idx, q) && ReadDir(env, q).Listed?
      ensures q in Populated(env, plan.jobs)
    {
      var j :| j in plan.jobs && j.path == q;
    }
  }

  /**
   * `Promise.all` keeps a closed index closed, except under an input whose
   * tolerated failure deleted its node.
   */
  lemma ReadAllKeepsClosed(o: Options, env: Env, idx: IndexMap, paths: seq<Path>)
    requires |o.stop| > 0 && ChainClosed(o.stop, idx)
    ensures var r := ReadAll(o, env, idx, paths).index;
      forall k {:trigger Parent(k)} :: Reserved(r, k) && BelowStop(o.stop, Parent(k)) ==>
        Reserved(r, Parent(k)) || (Parent(k) in paths && Swallowed(o, env, Job(Parent(k), true)))
  {
    var plan := ReserveAll(o, idx, paths);
    ReserveAllEffect(o, idx, paths);
    ReserveAllCloses(o, idx, paths);
    SettleReserved(env, plan.index, plan.jobs);
    forall q | q in Removed(o, env, plan.jobs) ensures q in paths && Swallowed(o, env, Job(q, true)) {
      var j :| j in plan.jobs && Swallowed(o, env, j) && j.path == q;
      ToleratedTable(o, ReadDir(env, q).code, j.isInitial);
    }
  }
}
