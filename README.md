# rm-up scanner, modelled in Dafny

rm-up deletes files or empty directories, and then every parent directory
that becomes empty, walking up to a stop directory that is itself never
deleted. The decision of *what* to delete is made by one class, `Scanner`
(`src/scanner.ts`). This project models that class and proves properties of
the model. The model has three phases:

1. **Index** (`readDirUp`). Every input path is read upward to the stop
   directory. Each path below stop gets a node in an index: its status
   (UNPROCESSED, PROCESSING or READY), the names of its child directories
   and its non-junk file names. A listing failure of an initial path can be
   tolerated according to `force` and `deleteInitial`. Any other listing
   failure of an initial path rejects the whole call.
2. **Decide** (`getTopPathToDelete`). From each input path upward, a level
   that qualifies is deleted from the index. A file qualifies when it is
   initial and `deleteInitial` is set. A directory qualifies when it is
   READY and is either initial with `deleteInitial` or has no files and no
   subdirectories left. Deleting a level also removes its name from its
   parent's node, and the topmost deleted level is the walk's result.
3. **Filter** (`filterSubPaths`). The results are stably sorted by path
   length. Every result whose path has an earlier result's path as a
   string prefix is dropped.

The modules follow this structure:

- `Paths` (`paths.dfy`): paths, the `belowStop` test, `join`/`basename`,
  and `Chain`, the positions an upward walk visits.
- `Indexer` (`indexer.dfy`): the index, and `ReadUp`, the specification
  function of one `readDirUp` call.
- `Batch` (`batch.dfy`): `ReadAll`, the specification of the batch read
  `Promise.all(absolutePaths.map((path) => this.readDirUp(path)))`, in
  three phases (reserve every chain, resume the successful listings,
  settle the failures), and its properties.
- `Resolver` (`resolver.dfy`): memory (index plus the `deletedFiles` and
  `deletedDirs` sets), `Step` (one level), `TopWalk` (one
  `getTopPathToDelete`), `Recorded` (every decision of a walk, bottom
  first) and `DecideAll` (the batch).
- `SubPaths` (`subpaths.dfy`): `SortByLength`, the reference filter `Keep`,
  and the method `FilterSubPaths`. The method has the nested loops and the
  `splice` of the source and is proved equal to `Keep(SortByLength(_))`.
- `RmUp` (`rmup.dfy`): the `Scanner` class. It has the index and the two
  deleted sets as mutable fields, and one method per operation, each proved
  against the specification functions above.
- `Wrappers` (`wrappers.dfy`): `Option` and `Result`.
- `Scenarios` (`scenarios.dfy`), `InitialScenarios` (`initial.dfy`),
  `ParentScenarios` (`parents.dfy`) and `MergeScenarios` (`merge.dfy`):
  the scanner run on two small concrete trees. They reproduce the cases of
  the repository's test suite at `test/index.test.ts` lines 56-62, 77-83,
  85-100, 118-124, 126-132, 142-158 and 169-175, one method per case. Each
  method constructs a `Scanner`, calls `GetPathsToDelete`, and states the
  exact result the test expects. The trees are chosen by hand, like the
  suite's fixture directories, and lemmas derive each result level by level
  through the specification functions. The stop-directory cases run on the
  tree of `Scenarios` instead of the fixture's `a1/a2/a3/a4`.
  `InitialScenarios.DeleteFileAndBelow` is one more case, not from the
  suite: a file given together with a path under it. The suite's other
  cases are not reproduced (see Left out).

The specification functions transcribe the source as follows; the lemmas
in the table below state their properties:

- `Paths.BelowStop`: `belowStop`, `src/scanner.ts:92-94`.
- `Paths.Parent`, `Paths.Basename` and `Paths.Join`: `join(path, "..")`,
  `basename` and `join(path, entry.name)` at `src/scanner.ts:109`, `114`
  and `144-145`, for resolved paths.
- `Indexer.ReadUp`: one `readDirUp` call, `src/scanner.ts:101-127`.
- `Batch.ReadAll`: the batch read at `src/scanner.ts:58`.
- `Resolver.Step`: one level of `getTopPathToDelete`,
  `src/scanner.ts:143-159`; `Resolver.TopWalk` is the whole walk,
  `src/scanner.ts:139-161`.
- `Resolver.DecideAll`: the walks and the `filter` at `src/scanner.ts:59`.
- `SubPaths.SortByLength` and `SubPaths.Keep`: the sort at
  `src/scanner.ts:72` and the nested scan at `src/scanner.ts:74-81`.

Notes on how the model reads the code:

- **Reservations come first.** `readDirUp` reserves its path and starts
  its parent's call before its first `await`, so the whole chain up to stop
  (or up to a path already reserved) is reserved synchronously. The batch
  maps every input to a call before awaiting any, so every input's chain is
  reserved before any listing is acted on (`Batch.ReserveAllEffect`). A
  later input whose chain meets an earlier input's reservation stops there,
  even when that earlier input is a file whose failing listing will delete
  its node (`InitialScenarios.DeleteFileAndBelow`).
- **One schedule.** After the reservations, each call resumes once its own
  listing and its parent's call have settled. The model takes the schedule
  in which the successful listings' continuations run first, last started
  first, and the failed ones run afterwards in input order (`Batch.ReadAll`).
  For a single call this schedule gives exactly the recursive `ReadUp`
  (`Batch.ReadUpInPhases`).
- **Ancestor failures are swallowed.** `Promise.allSettled` is used, and
  only the path's own listing is inspected (`src/scanner.ts:109-111`). So a
  failure of an ancestor's listing never rejects the call
  (`Indexer.ReadUpRejects`).
- **A rejected read keeps its reservation.** When the path's own listing
  fails and the failure is not tolerated, the throw at
  `src/scanner.ts:122` happens before line 123 can delete the node. The
  PROCESSING reservation therefore stays in the index
  (`Indexer.ReadUpEffect`).
- **The batch rejects with one failure.** `Promise.all` over the inputs
  rejects with one input's failure, and the decision phase never runs. In
  the model's schedule this is the first rejecting input in input order
  (`Batch.FirstRejectionPass`).
- **String prefixes, not path components.** Both `belowStop` and the
  sub-path filter use `startsWith`. A sibling whose name extends the stop
  directory's name therefore counts as below stop
  (`Paths.SiblingCountsAsBelow`). Likewise a path such as `/x/ab` is
  filtered out by `/x/a`. The model keeps this behaviour.
- **Test names.** In `test/index.test.ts:56-62` each of the two tests
  about a missing input has the name of the other: the one named "should
  throw" passes `force` and expects an empty result. The scenarios follow
  the two bodies (`Scenarios.MissingForced`, `Scenarios.MissingRejected`).
- **Inputs are resolved.** Options arrive already resolved against the
  working directory: an absolute, non-empty stop path, `force` and
  `deleteInitial`. The input paths are already absolute. The file system
  is a map from path to listing; a path it does not contain fails with
  ENOENT. The junk-file test is a predicate passed in with it (`Env`).

## Model

| member | source | states |
|---|---|---|
| Paths.BelowStopIsStrictPrefix | src/scanner.ts:92-94 | a path is below stop exactly when stop is a strictly shorter string prefix of it; the stop path itself is never below stop |
| Paths.SiblingCountsAsBelow | src/scanner.ts:92-94 | the string-prefix test counts the sibling `/x/a20` as below the stop `/x/a2`, while its parent `/x` is not below it |
| Paths.ParentShorter | src/scanner.ts:109 | the parent `join(p, "..")` of a path below a non-empty stop is strictly shorter, so the upward recursions terminate |
| Paths.JoinBelowStop | src/scanner.ts:114 | the path of a child entry of a directory below stop is itself below stop, and longer than the directory |
| Paths.JoinThenSplit | src/scanner.ts:144-145 | for a separator-free name, the parent of `join(p, name)` is `p` and its basename is `name`, so a child found by a listing is unlinked from the node that listed it |
| Paths.BasenameIdempotent | src/scanner.ts:148 | the doubled `basename(basename(path))` equals `basename(path)` |
| Paths.Chain | src/scanner.ts:139-145 | the positions of an upward walk are all below stop and string prefixes of the start path, strictly shortening, and start at the start path when it is below stop |
| Indexer.ToleratedTable | src/scanner.ts:120-122 | a listing failure is tolerated exactly for an initial path with ENOTDIR under `deleteInitial` or `force`, or ENOENT under `force`; never for a non-initial path or another error |
| Indexer.AddPlaceholdersEffect | src/scanner.ts:112-116 | processing a listing adds exactly one UNPROCESSED node per child directory that had no node, and leaves every existing node unchanged |
| Indexer.ReadUpFrame | src/scanner.ts:105-115 | a read of a path never changes a node of a longer path, and creates such nodes only as placeholders; in particular the ancestor read leaves the child's reservation in place |
| Indexer.ReadUpEffect | src/scanner.ts:101-127 | for the path itself: a reserved path or one not below stop changes nothing; a successful listing leaves a READY node with exactly the child directory names and non-junk file names, and a node for every child directory; a tolerated failure removes the node; any other failure rejects with its code and keeps the PROCESSING reservation |
| Indexer.ReadUpRejects | src/scanner.ts:109-122 | a read rejects exactly when the path is unreserved, below stop, and its own listing fails with an untolerated error; failures of ancestors never reject |
| Indexer.ReadUpMemoised | src/scanner.ts:103-104 | once a read has left a node for its path, reading that path again, initial or not, changes nothing and passes |
| Indexer.MissingWithoutForceRejects | src/scanner.ts:119-122 | without `force`, a missing initial path that is below stop and unindexed rejects with ENOENT |
| Indexer.ReadUpBelowStop | src/scanner.ts:104-115 | the index only ever holds paths strictly below stop; in particular the stop path never gets a node |
| Indexer.AncestorReadKeepsNodes | src/scanner.ts:109-123 | a non-initial read never removes a node, whatever its listing does |
| Batch.ReserveChainEffect | src/scanner.ts:103-109 | the synchronous part of one call reserves exactly the paths whose calls it starts, bottom first, all on the path's chain to stop; only the first call is initial, and afterwards the path is reserved when it is below stop |
| Batch.ReserveAllEffect | src/scanner.ts:58 | before any listing is acted on, the batch has reserved exactly the started paths, all below stop; only inputs start initial calls, and every input below stop is reserved |
| Batch.ReserveAllCloses | src/scanner.ts:103-109 | the reservations keep the index chain-closed: the parent of a reserved path is reserved whenever it is below stop |
| Batch.SettleEffect | src/scanner.ts:111-118 | the continuations keep every node; a started path whose listing succeeds ends READY with exactly its child directory names and non-junk file names; every other old node keeps its value, and every other new node is an UNPROCESSED placeholder |
| Batch.SettleReserved | src/scanner.ts:111-118 | the continuations of reserved paths never change which paths are reserved |
| Batch.FirstRejectionPass | src/scanner.ts:119-122 | the batch passes exactly when no input's own listing fails with an untolerated error, and a rejection carries the code of such an input |
| Batch.ReadUpInPhases | src/scanner.ts:101-127 | for one call, the recursive `ReadUp` and the three-phase schedule leave the same index, and for an initial call the same outcome |
| Batch.ReadAllSingle | src/scanner.ts:58 | a batch of one input is one initial `readDirUp` call |
| Batch.ReadAllRepeated | src/scanner.ts:103-104 | appending an input that is already in the batch changes neither the index nor the outcome |
| Batch.ReadUpIndexesAncestors | src/scanner.ts:101-127 | for a chain-closed index, after one call every position on the parent's chain to stop has a node, and every position on the path's chain that was unreserved and lists successfully is READY with exactly its listing's names |
| Batch.ReadUpKeepsClosed | src/scanner.ts:101-127 | one call keeps a chain-closed index chain-closed |
| Batch.ReadAllIndexesChains | src/scanner.ts:58 | after the batch every position on an input's chain has a node, unless it is an input whose tolerated failure deleted it; every such position that was unreserved and lists successfully is READY with exactly its listing's names |
| Batch.ReadAllKeepsClosed | src/scanner.ts:58 | the batch keeps a chain-closed index chain-closed, except under an input whose tolerated failure deleted its node |
| Batch.ReadAllBelowStop | src/scanner.ts:58 | reading the whole batch keeps every indexed path below stop |
| Resolver.StepChoice | src/scanner.ts:148-159 | one level chooses the file exactly when the file qualifies, else the directory exactly when the directory qualifies, else nothing; choosing nothing changes nothing |
| Resolver.StepFileEffect | src/scanner.ts:148-152 | choosing a file adds it to `deletedFiles`, keeps the node set, removes only its name from the parent's files, and leaves every other node unchanged |
| Resolver.StepDirEffect | src/scanner.ts:153-158 | choosing a directory adds it to `deletedDirs`, removes its node, removes its name from the parent's directories and files, and leaves every other node unchanged |
| Resolver.DirQualifiesIffEmpty | src/scanner.ts:153 | a listed directory qualifies as a non-initial level exactly when every entry of its listing is a junk file |
| Resolver.ProtoChildLooksEmpty | src/scanner.ts:153 | a directory whose only entry is a child directory named `__proto__` passes the source's key-count test, `DirQualifiesAsWritten`, but not `DirQualifies` |
| Resolver.NonInitialNeedsEmpty | src/scanner.ts:146-153 | above the initial level only a directory can be chosen, and only one whose node is READY with no files and no subdirectories |
| Resolver.TopIsLastRecorded | src/scanner.ts:139-160 | the walk's result is its last (topmost) recorded decision, or the incoming current top path when it records none |
| Resolver.RecordedAlongChain | src/scanner.ts:139-160 | every recorded decision lies on the walk's chain below stop, and the decisions are recorded strictly upward |
| Resolver.WalkDeletes | src/scanner.ts:149-157 | a walk adds to `deletedDirs` exactly its recorded directory decisions, and to `deletedFiles` exactly its recorded file decisions |
| Resolver.WalkRemovesRecordedDirs | src/scanner.ts:154 | a walk removes from the index exactly the directories it records, all of which had nodes, and adds no node |
| Resolver.WalkResultOnChain | src/scanner.ts:139-140 | the result of a walk started without a decision is nothing or a path on the start path's chain, strictly below stop |
| Resolver.DecisionsOnChains | src/scanner.ts:59 | every decision of the batch is strictly below stop and lies on the chain of one of the inputs |
| SubPaths.Insert | src/scanner.ts:72 | inserting one entry into the sorted sequence lengthens it by one and adds exactly that entry |
| Paths.Utf16Prefix | src/scanner.ts:72 | a string prefix has at most as many UTF-16 code units as the string, and exactly as many only when it is the whole string |
| SubPaths.SortByLength | src/scanner.ts:72 | the sort is a permutation of its input and orders the entries by ascending path length in UTF-16 code units |
| SubPaths.SortIsStable | src/scanner.ts:72 | the sort keeps entries of equal length in UTF-16 code units in their input order |
| SubPaths.KeepNoNested | src/scanner.ts:74-81 | on length-sorted input, no kept path is a string prefix of another kept path, and no path is kept twice |
| SubPaths.KeepCovers | src/scanner.ts:74-81 | every input entry has some kept entry's path as a prefix |
| SubPaths.KeepSubset | src/scanner.ts:74-81 | every kept entry is an input entry |
| SubPaths.KeepIsSubsequence | src/scanner.ts:74-81 | the kept entries are the input read at strictly increasing positions, so input order is kept |
| SubPaths.KeptAreMinimal | src/scanner.ts:71-84 | after sorting, the kept entries are inputs whose path has no strictly shorter prefix among the inputs, and every input path with no such prefix is kept |
| SubPaths.FilterSubPaths | src/scanner.ts:71-84 | the nested scan with `splice` returns exactly the reference filter of the length-sorted input: an order-preserving subsequence of it, with no nested paths, covering every input, and holding only inputs |
| RmUp.Scanner.constructor | src/scanner.ts:40-47 | a new scanner holds the given options, an empty index and empty deleted sets |
| RmUp.Scanner.ReadDirUp | src/scanner.ts:101-127 | the new index and the outcome are those of the specification `ReadUp` on the old index, and the index stays below stop |
| RmUp.Scanner.RecordEntries | src/scanner.ts:112-118 | the listing loop yields exactly the child directory names and the non-junk file names, and adds exactly the placeholders of `AddPlaceholders` |
| RmUp.Scanner.GetTopPathToDelete | src/scanner.ts:139-161 | the new memory and the result are those of the specification `TopWalk` on the old memory |
| RmUp.Scanner.Reserve | src/scanner.ts:103-109 | the recursive synchronous part of a call leaves the index and the started calls of `ReserveChain` on the old index, and keeps it below stop |
| RmUp.Scanner.ResumeRead | src/scanner.ts:111-126 | the continuation of a call whose listing succeeded records its children and leaves the READY node of `Resume`; after a failed listing it changes nothing |
| RmUp.Scanner.ReserveInputs | src/scanner.ts:58 | mapping the inputs to calls, in input order, leaves the reservations and the started calls of `ReserveAll` |
| RmUp.Scanner.ResumeAll | src/scanner.ts:109-118 | the loop over the started calls from the last back to the first leaves the index of `Settle` |
| RmUp.Scanner.FinishFailures | src/scanner.ts:119-124 | with the source's `ignoreFileError` and `ignoreDirError`, the failed calls delete exactly the nodes of tolerated failures, and the outcome is the first input's untolerated failure |
| RmUp.Scanner.ReadDirsUp | src/scanner.ts:58 | the three phases together leave the index and the outcome of the batch `ReadAll` on the old index, and keep the index below stop |
| RmUp.Scanner.TopPathsToDelete | src/scanner.ts:59 | the new memory and the defined results, in input order, are those of `DecideAll` on the old memory |
| RmUp.Scanner.GetPathsToDelete | src/scanner.ts:55-61 | the call rejects with the first untolerated listing error of the batch, leaving the deleted sets unchanged; otherwise it returns the filtered, length-sorted decisions, pairwise non-nested, below stop, each on the chain of an input |
| Scenarios.CommonParents | test/index.test.ts:169-175 | two inputs under the common parent `c1` of an otherwise empty tree yield `c1` alone: the first walk stops at `c3x` while `c2` still lists `c3y`, and the second walk climbs to `c1`, under which `c3x` is then filtered out |
| Scenarios.MissingRejected | test/index.test.ts:60-62 | without `force`, a missing input makes the call reject with ENOENT |
| Scenarios.MissingForced | test/index.test.ts:56-58 | with `force`, a missing input is skipped; its existing parent still lists a child, so nothing is reported |
| Scenarios.StopAtInput | test/index.test.ts:142-149 | when the input is the stop directory, nothing is reported |
| Scenarios.StopAtParent | test/index.test.ts:151-158 | when the stop directory is the input's parent, only the input is reported |
| InitialScenarios.KeepNonEmptyTarget | test/index.test.ts:85-92 | with `force` alone, a non-empty initial directory is not deleted and nothing is reported |
| InitialScenarios.DeleteInitialDir | test/index.test.ts:94-100 | with `deleteInitial`, the non-empty directory given twice is deleted, its parent that holds only junk files follows, and the parent alone is reported |
| InitialScenarios.DeleteFileAndBelow | src/scanner.ts:58 | with `deleteInitial`, a file given together with a path under it: the second input's chain stops at the file's reservation, both ENOTDIR failures are tolerated, and the file alone is reported |
| InitialScenarios.DeleteSingleFile | test/index.test.ts:126-132 | with `deleteInitial`, a single file is reported, and its parent, which still holds a sibling file, is not |
| ParentScenarios.DeleteParentsOfMissing | test/index.test.ts:77-83 | with `force`, the missing input `a1/a2/a3/a4/x/y/z` is skipped; the failed listings of `x` and `y` keep their PROCESSING nodes, the walk passes them, deletes the empty `a4` and then `a3`, and stops at `a2`, which holds a file, so `a1/a2/a3` alone is reported |
| MergeScenarios.DeleteFileAndEmptyParents | test/index.test.ts:118-124 | with `force` and `deleteInitial`, the inputs `a1/a2/a3/a4`, `a1/a2/a2.txt` and `a1/a2/a2.txt`: the repeated input changes nothing, the first walk deletes `a4` and `a3`, the second deletes the file and then `a2` and `a1`, and `a3` is filtered out under `a1`, so `a1` alone is reported |

## Left out

- The caller in `src/main.ts` is not part of this model: the file-system deletion (`rmdir`/`unlink`), `dry`, `verbose`, `relative` and the final sort of the returned names. The model stops at the entries `getPathsToDelete` returns.
- Path resolution against the working directory (`src/scanner.ts:57`, `src/main.ts:33`) and the wrapping of a single string into an array (`src/scanner.ts:56`): inputs and options are taken as already resolved. `Parent` is only faithful to `join(p, "..")` for resolved paths.
- Batch.ReadAll: models one schedule of `Promise.all` and `Promise.allSettled` that the source can take, not every interleaving of the `fs.readdir` results. Under another timing the batch's error can be another rejecting input's error, because `Promise.all` reports the first rejection in time. The index after a rejection is never read, and continuations still pending then are not modelled.
- `fs.readdir` is the `Env.fs` map, and the `junk` package is the `Env.isJunk` predicate. Neither is modelled further. Error codes other than ENOENT and ENOTDIR are one `OtherError`.
- `Array.prototype.sort` is modelled by its result, a stable sort by `path.length`, the count of UTF-16 code units (`Paths.Utf16Length`: two for a character above U+FFFF). This is the order ECMAScript 2019 requires. The engine's algorithm is not modelled.
- SubPaths.FilterSubPaths: works on a `seq`, not in place. The source's sort and `splice` also reorder and shorten the caller's array, and the caller never reads it again.
- The `dir.status = READY` write at `src/scanner.ts:126` is not modelled after a tolerated failure has deleted the node. The node object is then unreachable, so the write has no observable effect.
- `Dir.dirs` maps names to the child node objects. The model keeps the names only: no code reads the child objects through it. The model's `DirQualifies` counts every child name; the source's key count misses `__proto__` (see Findings).
- The test cases at `test/index.test.ts:64-75` (a race under heavy load, which one schedule cannot show), `102-116` and `160-167` (inputs and stop resolved against the working directory, which the model takes as already done) and `134-140` (`verbose`, which `src/main.ts` handles) are not reproduced as scenarios.
- `src/index.ts` (a re-export) and `config/jest.config.js` are not part of this model.

## Findings

| source | as written | input that shows it | evidently intended | confidence | as-written member | corrected member |
|---|---|---|---|---|---|---|
| src/scanner.ts:116 | `dir.dirs` is a plain object, so `dir.dirs["__proto__"] = node` sets its prototype and adds no own key; the emptiness test `Object.keys(dir.dirs).length === 0` at line 153 then misses that child | a non-initial directory `/t/a` whose only entry is a child directory `__proto__`: it counts as empty and is chosen for deletion with its contents | a directory with a child directory is never empty | not executed | Resolver.ProtoChildLooksEmpty | Resolver.DirQualifiesIffEmpty |
