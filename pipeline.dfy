/**
 * The `/api/process-images` handler: one job per non-empty batch, one
 * favicon set per file whose three renditions are all written, the job's
 * progress counter and its terminal status. The per-file tasks, which the
 * handler starts together and joins with `Promise.all`, run here one after
 * the other in index order.
 */
module Pipeline {
  import opened Wrappers
  import opened Schema
  import opened Naming
  import opened Storage

  /** What a failing step throws: an `Error` with its message, or some other value. */
  datatype Thrown = ErrorInstance(message: string) | NonError

  /** `error instanceof Error ? error.message : 'Unknown error'` */
  function FailureMessage(t: Thrown): string {
    match t
    case ErrorInstance(m) => m
    case NonError => "Unknown error"
  }

  /** An uploaded file as the handler sees it; its bytes only matter to the resize step. */
  datatype UploadedFile = UploadedFile(originalName: string, mimetype: string)

  /**
   * What the outside world does while one file's task runs: the value of
   * `Date.now()`, the `createdAt` timestamp of its set, and for each size
   * whether resizing and writing the rendition throws (Some) or not (None).
   */
  datatype FileEnv = FileEnv(timestamp: nat, createdAt: string, render: nat -> Option<Thrown>)

  /** The response of the handler. */
  datatype UploadReply =
    | Processed(message: string, jobId: nat)   // 200
    | BadRequest(message: string)              // 400
    | InternalError(message: string)           // 500
    | Rejected(message: string)                // the upload filter refused a file; the handler never ran

  const Sizes: seq<nat> := [16, 32, 48]

  lemma SizeKeys()
    ensures NatToString(16) == "16" && NatToString(32) == "32" && NatToString(48) == "48"
  {
  }

  // ---------------------------------------------------------------------
  // One file

  /** The first size whose rendition throws, in the order the sizes are tried. */
  function FirstRenderFailure(render: nat -> Option<Thrown>, sizes: seq<nat>): Option<Thrown> {
    if sizes == [] then None
    else
      var f := FirstRenderFailure(render, sizes[..|sizes| - 1]);
      if f.Some? then f else render(sizes[|sizes| - 1])
  }

  /** Once a size has thrown, the sizes after it do not change the outcome. */
  lemma {:induction false} FirstRenderFailureSticks(render: nat -> Option<Thrown>, sizes: seq<nat>, i: nat)
    requires i <= |sizes|
    requires FirstRenderFailure(render, sizes[..i]).Some?
    ensures FirstRenderFailure(render, sizes) == FirstRenderFailure(render, sizes[..i])
  {
    if i < |sizes| {
      var n := |sizes| - 1;
      assert sizes[..n][..i] == sizes[..i];
      FirstRenderFailureSticks(render, sizes[..n], i);
    } else {
      assert sizes[..i] == sizes;
    }
  }

  /** The `sizes` record of a set whose renditions were all written. */
  function SizesRecord(stem: string, timestamp: nat, sizes: seq<nat>): Entries {
    seq(|sizes|, i requires 0 <= i < |sizes| =>
      (NatToString(sizes[i]), FaviconUrl(OutputFilename(stem, sizes[i], timestamp))))
  }

  /**
   * The record has exactly the keys "16", "32", "48", in that order, and
   * key `s` maps to `/api/favicons/{stem}_{s}x{s}_{timestamp}.png`.
   */
  lemma SizesRecordSpec(stem: string, timestamp: nat)
    ensures Keys(SizesRecord(stem, timestamp, Sizes)) == ["16", "32", "48"]
    ensures forall i :: 0 <= i < 3 ==>
      var key := Keys(SizesRecord(stem, timestamp, Sizes))[i];
      SizesRecord(stem, timestamp, Sizes)[i].1
        == "/api/favicons/" + stem + "_" + key + "x" + key + "_" + NatToString(timestamp) + ".png"
  {
    SizeKeys();
  }

  /**
   * The loop over the sizes: resize and write each rendition, then record
   * its URL under the size; the first throw abandons the file.
   */
  method BuildSizesPaths(stem: string, env: FileEnv) returns (sizesPaths: Entries, failure: Option<Thrown>)
    ensures failure == FirstRenderFailure(env.render, Sizes)
    ensures failure.None? ==> sizesPaths == SizesRecord(stem, env.timestamp, Sizes)
  {
    SizeKeys();
    sizesPaths := [];
    var i := 0;
    while i < |Sizes|
      invariant 0 <= i <= |Sizes|
      invariant FirstRenderFailure(env.render, Sizes[..i]) == None
      invariant sizesPaths == SizesRecord(stem, env.timestamp, Sizes[..i])
    {
      var size := Sizes[i];
      var outputFilename := OutputFilename(stem, size, env.timestamp);
      assert Sizes[..i + 1][..i] == Sizes[..i];
      var written := env.render(size);
      if written.Some? {
        FirstRenderFailureSticks(env.render, Sizes, i + 1);
        return sizesPaths, written;
      }
      assert NatToString(size) !in Keys(sizesPaths);
      sizesPaths := Put(sizesPaths, NatToString(size), FaviconUrl(outputFilename));
      i := i + 1;
    }
    assert Sizes[..i] == Sizes;
    failure := None;
  }

  /** Whether a file's task gets through all its renditions. */
  predicate Succeeds(env: FileEnv) {
    FirstRenderFailure(env.render, Sizes).None?
  }

  /** The set a file whose renditions were all written produces. */
  function SetFor(file: UploadedFile, env: FileEnv): InsertFaviconSet {
    InsertFaviconSet(
      file.originalName,
      OriginalFormat(file.originalName),
      SizesRecord(UploadStem(file.originalName), env.timestamp, Sizes),
      env.createdAt)
  }

  /** The sizes are tried until one throws: there is no failure exactly when none throws. */
  lemma {:induction false} FirstRenderFailureNoneIff(render: nat -> Option<Thrown>, sizes: seq<nat>)
    ensures FirstRenderFailure(render, sizes).None? <==> forall i :: 0 <= i < |sizes| ==> render(sizes[i]).None?
  {
    if sizes != [] {
      var n := |sizes| - 1;
      FirstRenderFailureNoneIff(render, sizes[..n]);
      assert forall i :: 0 <= i < n ==> sizes[..n][i] == sizes[i];
    }
  }

  /** A file fails exactly when one of its three renditions throws. */
  lemma SucceedsIff(env: FileEnv)
    ensures Succeeds(env) <==> env.render(16).None? && env.render(32).None? && env.render(48).None?
  {
    FirstRenderFailureNoneIff(env.render, Sizes);
  }

  /**
   * The set a file produces keeps the file's name, has exactly the three
   * size keys, and has the extension, without its `.`, as its format.
   */
  lemma SetForSpec(file: UploadedFile, env: FileEnv)
    ensures SetFor(file, env).originalName == file.originalName
    ensures SetFor(file, env).createdAt == env.createdAt
    ensures Keys(SetFor(file, env).sizes) == ["16", "32", "48"]
    ensures var e := ExtName(file.originalName);
      SetFor(file, env).originalFormat == if e == "" then "" else e[1..]
  {
    SizesRecordSpec(UploadStem(file.originalName), env.timestamp);
    OriginalFormatSpec(file.originalName);
  }

  /**
   * One file's task: build its renditions, create its set, then set the
   * job's `completedImages` to the file's index plus one. A throw leaves
   * the store as it was.
   */
  method ProcessFile(store: MemStorage, jobId: nat, index: nat, file: UploadedFile, env: FileEnv)
      returns (failure: Option<Thrown>)
    requires store.Valid() && jobId in store.processingJobs
    modifies store
    ensures store.Valid()
    ensures failure == FirstRenderFailure(env.render, Sizes)
    ensures !Succeeds(env) ==>
      && store.faviconSets == old(store.faviconSets)
      && store.faviconSetOrder == old(store.faviconSetOrder)
      && store.faviconSetCurrentId == old(store.faviconSetCurrentId)
      && store.processingJobs == old(store.processingJobs)
    ensures Succeeds(env) ==>
      var id := old(store.faviconSetCurrentId);
      && store.faviconSets == old(store.faviconSets)[id := SetWithId(SetFor(file, env), id)]
      && store.faviconSetOrder == old(store.faviconSetOrder) + [id]
      && store.faviconSetCurrentId == id + 1
      && store.processingJobs ==
           old(store.processingJobs)[jobId := old(store.processingJobs)[jobId].(completedImages := index + 1)]
    ensures store.processingJobCurrentId == old(store.processingJobCurrentId)
  {
    var stem := UploadStem(file.originalName);
    var sizesPaths, thrown := BuildSizesPaths(stem, env);
    if thrown.Some? {
      return thrown;
    }
    var _ := store.CreateFaviconSet(InsertFaviconSet(
      file.originalName, OriginalFormat(file.originalName), sizesPaths, env.createdAt));
    var _ := store.UpdateProcessingJob(jobId, NoChange.(completedImages := Some(index + 1)));
    failure := None;
  }

  // ---------------------------------------------------------------------
  // A batch, as the sequence of its first n files

  /** The set each file of a batch would produce, were all its renditions written. */
  function Candidates(files: seq<UploadedFile>, envs: seq<FileEnv>): seq<InsertFaviconSet>
    requires |files| == |envs|
  {
    seq(|files|, i requires 0 <= i < |files| => SetFor(files[i], envs[i]))
  }

  /** The candidates whose file succeeded, in index order. */
  function Kept(candidates: seq<InsertFaviconSet>, envs: seq<FileEnv>): seq<InsertFaviconSet>
    requires |candidates| == |envs|
  {
    if envs == [] then []
    else
      var n := |envs| - 1;
      Kept(candidates[..n], envs[..n]) + if Succeeds(envs[n]) then [candidates[n]] else []
  }

  /** The sets the successful files create, in index order. */
  function Created(files: seq<UploadedFile>, envs: seq<FileEnv>): seq<InsertFaviconSet>
    requires |files| == |envs|
  {
    Kept(Candidates(files, envs), envs)
  }

  /** How many files of a batch succeeded. */
  function SuccessCount(envs: seq<FileEnv>): nat {
    if envs == [] then 0
    else
      var n := |envs| - 1;
      SuccessCount(envs[..n]) + if Succeeds(envs[n]) then 1 else 0
  }

  /** `completedImages` after every task has run: the index, plus one, of the last file that succeeded. */
  function CompletedCount(envs: seq<FileEnv>): nat {
    if envs == [] then 0
    else
      var n := |envs| - 1;
      if Succeeds(envs[n]) then |envs| else CompletedCount(envs[..n])
  }

  /** The reason `Promise.all` rejects with: the first failure in index order. */
  function FirstFailure(envs: seq<FileEnv>): Option<Thrown> {
    if envs == [] then None
    else
      var n := |envs| - 1;
      var f := FirstFailure(envs[..n]);
      if f.Some? then f else FirstRenderFailure(envs[n].render, Sizes)
  }

  /** The job record at the end of the handler, for a batch of `|envs|` files. */
  function FinalJob(id: nat, envs: seq<FileEnv>, createdAt: string): ProcessingJob {
    var failure := FirstFailure(envs);
    ProcessingJob(
      id, |envs|, CompletedCount(envs),
      if failure.None? then Completed else Failed,
      if failure.None? then None else Some(FailureMessage(failure.value)),
      createdAt)
  }

  /** The sets `AddSets(m, inserts, firstId)`: the inserts stored under consecutive ids from `firstId`. */
  function AddSets(m: map<nat, FaviconSet>, inserts: seq<InsertFaviconSet>, firstId: nat): map<nat, FaviconSet> {
    if inserts == [] then m
    else
      var n := |inserts| - 1;
      AddSets(m, inserts[..n], firstId)[firstId + n := SetWithId(inserts[n], firstId + n)]
  }

  /** How the progress counter and the first failure change when one more file has run. */
  lemma EnvPrefixStep(envs: seq<FileEnv>, i: nat)
    requires i < |envs|
    ensures CompletedCount(envs[..i + 1]) == if Succeeds(envs[i]) then i + 1 else CompletedCount(envs[..i])
    ensures FirstFailure(envs[..i + 1])
      == if FirstFailure(envs[..i]).Some? then FirstFailure(envs[..i]) else FirstRenderFailure(envs[i].render, Sizes)
  {
    assert envs[..i + 1][..i] == envs[..i];
  }

  /** How the kept sets change when one more file has run. */
  lemma KeptPrefixStep(candidates: seq<InsertFaviconSet>, envs: seq<FileEnv>, i: nat)
    requires |candidates| == |envs| && i < |envs|
    ensures Succeeds(envs[i]) ==>
      Kept(candidates[..i + 1], envs[..i + 1]) == Kept(candidates[..i], envs[..i]) + [candidates[i]]
    ensures !Succeeds(envs[i]) ==> Kept(candidates[..i + 1], envs[..i + 1]) == Kept(candidates[..i], envs[..i])
  {
    assert candidates[..i + 1][..i] == candidates[..i];
    assert envs[..i + 1][..i] == envs[..i];
  }

  // ---------------------------------------------------------------------
  // What the batch functions say

  /** A batch fails exactly when one of its files fails. */
  lemma {:induction false} FirstFailureIff(envs: seq<FileEnv>)
    ensures FirstFailure(envs).None? <==> forall i :: 0 <= i < |envs| ==> Succeeds(envs[i])
  {
    if envs != [] {
      var n := |envs| - 1;
      FirstFailureIff(envs[..n]);
      assert forall i :: 0 <= i < n ==> envs[..n][i] == envs[i];
    }
  }

  /** The reported failure is what the first failing file threw. */
  lemma {:induction false} FirstFailureIsFirst(envs: seq<FileEnv>, i: nat)
    requires i < |envs| && !Succeeds(envs[i])
    requires forall k :: 0 <= k < i ==> Succeeds(envs[k])
    ensures FirstFailure(envs) == FirstRenderFailure(envs[i].render, Sizes)
  {
    var n := |envs| - 1;
    if i < n {
      FirstFailureIsFirst(envs[..n], i);
    } else {
      FirstFailureIff(envs[..n]);
    }
  }

  /**
   * `completedImages` never exceeds `totalImages`; it reaches it exactly
   * when the last file succeeds, in particular when every file does.
   */
  lemma {:induction false} CompletedCountBounds(envs: seq<FileEnv>)
    ensures CompletedCount(envs) <= |envs|
    ensures envs != [] ==> (CompletedCount(envs) == |envs| <==> Succeeds(envs[|envs| - 1]))
    ensures FirstFailure(envs).None? ==> CompletedCount(envs) == |envs|
  {
    if envs != [] {
      var n := |envs| - 1;
      CompletedCountBounds(envs[..n]);
    }
  }

  /** The progress counter never moves backwards as the files are processed in order. */
  lemma {:induction false} CompletedCountMonotone(envs: seq<FileEnv>, i: nat, j: nat)
    requires i <= j <= |envs|
    ensures CompletedCount(envs[..i]) <= CompletedCount(envs[..j])
  {
    if i < j {
      CompletedCountMonotone(envs, i, j - 1);
      EnvPrefixStep(envs, j - 1);
      CompletedCountBounds(envs[..j - 1]);
    }
  }

  /**
   * `completedImages == totalImages` does not mean success: when the first
   * of two files fails and the second succeeds the job ends `failed` with
   * its counter at 2 of 2.
   */
  lemma CompletedCountDoesNotMeanSuccess()
    ensures
      var ok := FileEnv(1, "t", _ => None);
      var bad := FileEnv(1, "t", _ => Some(ErrorInstance("boom")));
      var job := FinalJob(1, [bad, ok], "t");
      job.completedImages == job.totalImages == 2 && job.status == Failed && job.error == Some("boom")
  {
    var ok := FileEnv(1, "t", _ => None);
    var bad := FileEnv(1, "t", _ => Some(ErrorInstance("boom")));
    SucceedsIff(ok);
    assert Sizes[..1] == [16];
    assert FirstRenderFailure(bad.render, Sizes[..1]) == Some(ErrorInstance("boom"));
    FirstRenderFailureSticks(bad.render, Sizes, 1);
    assert Succeeds(ok) && FirstRenderFailure(bad.render, Sizes) == Some(ErrorInstance("boom"));
    var envs := [bad, ok];
    assert envs[..1] == [bad] && [bad][..0] == [];
    assert FirstFailure([bad]) == Some(ErrorInstance("boom"));
    assert FirstFailure(envs) == Some(ErrorInstance("boom"));
    assert CompletedCount(envs) == 2;
  }

  /** Only candidates whose file succeeded are kept, and all of them when every file succeeds. */
  lemma {:induction false} KeptCount(candidates: seq<InsertFaviconSet>, envs: seq<FileEnv>)
    requires |candidates| == |envs|
    ensures |Kept(candidates, envs)| <= |envs|
    ensures (forall i :: 0 <= i < |envs| ==> Succeeds(envs[i])) ==> Kept(candidates, envs) == candidates
    ensures forall s :: s in Kept(candidates, envs) ==>
      exists i :: 0 <= i < |envs| && Succeeds(envs[i]) && candidates[i] == s
  {
    if envs != [] {
      var n := |envs| - 1;
      KeptCount(candidates[..n], envs[..n]);
      forall s | s in Kept(candidates, envs)
        ensures exists i :: 0 <= i < |envs| && Succeeds(envs[i]) && candidates[i] == s
      {
        if s in Kept(candidates[..n], envs[..n]) {
          var i :| 0 <= i < n && Succeeds(envs[..n][i]) && candidates[..n][i] == s;
          assert candidates[..n][i] == candidates[i] && envs[..n][i] == envs[i];
        }
      }
      if forall i :: 0 <= i < |envs| ==> Succeeds(envs[i]) {
        assert forall i :: 0 <= i < n ==> envs[..n][i] == envs[i];
        assert candidates[..n] + [candidates[n]] == candidates;
      }
    }
  }

  /**
   * No rollback: the candidate of every successful file is kept, whatever
   * the other files do, and there is one kept set per successful file.
   */
  lemma KeptSurvivors(candidates: seq<InsertFaviconSet>, envs: seq<FileEnv>)
    requires |candidates| == |envs|
    ensures |Kept(candidates, envs)| == SuccessCount(envs) <= |envs|
    ensures forall i :: 0 <= i < |envs| && Succeeds(envs[i]) ==> candidates[i] in Kept(candidates, envs)
  {
    KeptCount(candidates, envs);
    KeptPositions(candidates, envs);
    forall i | 0 <= i < |envs| && Succeeds(envs[i]) ensures candidates[i] in Kept(candidates, envs) {
      assert Kept(candidates, envs)[SuccessCount(envs[..i])] == candidates[i];
    }
  }

  /**
   * The set of successful file `i` is kept at the position that counts the
   * successful files before it: sets are kept in file order.
   */
  lemma {:induction false} KeptPositions(candidates: seq<InsertFaviconSet>, envs: seq<FileEnv>)
    requires |candidates| == |envs|
    ensures |Kept(candidates, envs)| == SuccessCount(envs)
    ensures forall i :: 0 <= i < |envs| && Succeeds(envs[i]) ==>
      SuccessCount(envs[..i]) < |Kept(candidates, envs)| &&
      Kept(candidates, envs)[SuccessCount(envs[..i])] == candidates[i]
  {
    if envs != [] {
      var n := |envs| - 1;
      KeptPositions(candidates[..n], envs[..n]);
      assert envs[..n][..n] == envs[..n];
      forall i | 0 <= i < |envs| && Succeeds(envs[i])
        ensures SuccessCount(envs[..i]) < |Kept(candidates, envs)|
        ensures Kept(candidates, envs)[SuccessCount(envs[..i])] == candidates[i]
      {
        if i < n {
          assert envs[..n][i] == envs[i] && candidates[..n][i] == candidates[i];
          assert envs[..n][..i] == envs[..i];
        }
      }
    }
  }

  /**
   * Each successful file, and only those, contributes its set, in file
   * order: successful file `i` gives the set at the position that counts the
   * successful files before it, whether or not another file fails.
   */
  lemma CreatedSpec(files: seq<UploadedFile>, envs: seq<FileEnv>)
    requires |files| == |envs|
    ensures |Created(files, envs)| == SuccessCount(envs) <= |files|
    ensures (forall i :: 0 <= i < |envs| ==> Succeeds(envs[i])) ==>
      |Created(files, envs)| == |files| &&
      forall i :: 0 <= i < |files| ==> Created(files, envs)[i] == SetFor(files[i], envs[i])
    ensures forall i :: 0 <= i < |files| && Succeeds(envs[i]) ==>
      SuccessCount(envs[..i]) < |Created(files, envs)| &&
      Created(files, envs)[SuccessCount(envs[..i])] == SetFor(files[i], envs[i])
    ensures forall s :: s in Created(files, envs) ==>
      exists i :: 0 <= i < |files| && Succeeds(envs[i]) && SetFor(files[i], envs[i]) == s
  {
    KeptCount(Candidates(files, envs), envs);
    KeptSurvivors(Candidates(files, envs), envs);
    KeptPositions(Candidates(files, envs), envs);
  }

  // ---------------------------------------------------------------------
  // The handler

  /** Storing one more set: the map gains it under the next id. */
  lemma AddSetsStep(m: map<nat, FaviconSet>, inserts: seq<InsertFaviconSet>, x: InsertFaviconSet, firstId: nat)
    ensures AddSets(m, inserts + [x], firstId)
      == AddSets(m, inserts, firstId)[firstId + |inserts| := SetWithId(x, firstId + |inserts|)]
  {
    assert (inserts + [x])[..|inserts|] == inserts;
  }

  /** The ids of consecutive sets, one more. */
  lemma RangeStep(firstId: nat, n: nat)
    ensures Range(firstId, n + 1) == Range(firstId, n) + [firstId + n]
  {
  }

  /** The store's tables and counters at some point, to describe later states against. */
  datatype Snapshot = Snapshot(
    jobs: map<nat, ProcessingJob>,
    jobCounter: nat,
    sets: map<nat, FaviconSet>,
    order: seq<nat>,
    setCounter: nat)

  ghost function SnapshotOf(store: MemStorage): Snapshot
    reads store
  {
    Snapshot(store.processingJobs, store.processingJobCurrentId,
      store.faviconSets, store.faviconSetOrder, store.faviconSetCurrentId)
  }

  /** What one successful task does to the store: its set under the next id, the job's counter at `index + 1`. */
  function Stored(snap: Snapshot, jobId: nat, index: nat, x: InsertFaviconSet): Snapshot
    requires jobId in snap.jobs
  {
    snap.(
      jobs := snap.jobs[jobId := snap.jobs[jobId].(completedImages := index + 1)],
      sets := snap.sets[snap.setCounter := SetWithId(x, snap.setCounter)],
      order := snap.order + [snap.setCounter],
      setCounter := snap.setCounter + 1)
  }

  /**
   * The store after the first `i` tasks of a batch, starting from `s0`:
   * the sets of the successful files under consecutive ids, and the job's
   * counter at the index, plus one, of the last success.
   */
  ghost predicate Ran(snap: Snapshot, s0: Snapshot, jobId: nat,
                      candidates: seq<InsertFaviconSet>, envs: seq<FileEnv>, i: nat)
    requires |candidates| == |envs| && i <= |envs| && jobId in s0.jobs
  {
    var created := Kept(candidates[..i], envs[..i]);
    && snap.jobs == s0.jobs[jobId := s0.jobs[jobId].(completedImages := CompletedCount(envs[..i]))]
    && snap.jobCounter == s0.jobCounter
    && snap.sets == AddSets(s0.sets, created, s0.setCounter)
    && snap.order == s0.order + Range(s0.setCounter, |created|)
    && snap.setCounter == s0.setCounter + |created|
  }

  /** Task `i` takes the store from the state after `i` tasks to the state after `i + 1`. */
  lemma RanStep(before: Snapshot, after: Snapshot, s0: Snapshot, jobId: nat,
                candidates: seq<InsertFaviconSet>, envs: seq<FileEnv>, i: nat)
    requires |candidates| == |envs| && i < |envs| && jobId in s0.jobs
    requires Ran(before, s0, jobId, candidates, envs, i)
    requires Succeeds(envs[i]) ==> after == Stored(before, jobId, i, candidates[i])
    requires !Succeeds(envs[i]) ==> after == before
    ensures Ran(after, s0, jobId, candidates, envs, i + 1)
  {
    EnvPrefixStep(envs, i);
    KeptPrefixStep(candidates, envs, i);
    var created := Kept(candidates[..i], envs[..i]);
    if Succeeds(envs[i]) {
      var job0 := s0.jobs[jobId];
      UpdateTwice(s0.jobs, jobId, job0.(completedImages := CompletedCount(envs[..i])),
        job0.(completedImages := i + 1));
      AddSetsStep(s0.sets, created, candidates[i], s0.setCounter);
      RangeStep(s0.setCounter, |created|);
    }
  }

  /** Task `i` of a batch whose first `i` tasks have run. */
  method RunTask(store: MemStorage, ghost s0: Snapshot, jobId: nat, ghost candidates: seq<InsertFaviconSet>,
                 files: seq<UploadedFile>, envs: seq<FileEnv>, i: nat)
      returns (thrown: Option<Thrown>)
    requires |files| == |envs| && i < |files| && jobId in s0.jobs
    requires candidates == Candidates(files, envs)
    requires store.Valid() && Ran(SnapshotOf(store), s0, jobId, candidates, envs, i)
    modifies store
    ensures store.Valid() && Ran(SnapshotOf(store), s0, jobId, candidates, envs, i + 1)
    ensures thrown == FirstRenderFailure(envs[i].render, Sizes)
  {
    ghost var before := SnapshotOf(store);
    thrown := ProcessFile(store, jobId, i, files[i], envs[i]);
    if Succeeds(envs[i]) {
      assert candidates[i] == SetFor(files[i], envs[i]);
      assert SnapshotOf(store) == Stored(before, jobId, i, candidates[i]);
    } else {
      assert SnapshotOf(store) == before;
    }
    RanStep(before, SnapshotOf(store), s0, jobId, candidates, envs, i);
  }

  /** After the last task: the store described by the whole batch. */
  lemma RanAll(snap: Snapshot, s0: Snapshot, jobId: nat, files: seq<UploadedFile>, envs: seq<FileEnv>)
    requires |files| == |envs| && jobId in s0.jobs
    requires Ran(snap, s0, jobId, Candidates(files, envs), envs, |envs|)
    ensures snap.jobs == s0.jobs[jobId := s0.jobs[jobId].(completedImages := CompletedCount(envs))]
    ensures snap.jobCounter == s0.jobCounter
    ensures var created := Created(files, envs);
      && snap.sets == AddSets(s0.sets, created, s0.setCounter)
      && snap.order == s0.order + Range(s0.setCounter, |created|)
      && snap.setCounter == s0.setCounter + |created|
  {
    assert Candidates(files, envs)[..|envs|] == Candidates(files, envs);
    assert envs[..|envs|] == envs;
  }

  /** Writing a key twice keeps only the second value. */
  lemma UpdateTwice<K, V>(m: map<K, V>, k: K, a: V, b: V)
    ensures m[k := a][k := b] == m[k := b]
  {
  }

  /**
   * The per-file tasks of a batch, one after the other in index order.
   * Each task runs whether or not an earlier one threw; the result is the
   * first failure in index order. The job starts with no file completed.
   */
  method RunTasks(store: MemStorage, jobId: nat, files: seq<UploadedFile>, envs: seq<FileEnv>)
      returns (firstFailure: Option<Thrown>)
    requires |envs| == |files|
    requires store.Valid() && jobId in store.processingJobs
    requires store.processingJobs[jobId].completedImages == 0
    modifies store
    ensures store.Valid()
    ensures firstFailure == FirstFailure(envs)
    ensures Ran(SnapshotOf(store), old(SnapshotOf(store)), jobId, Candidates(files, envs), envs, |envs|)
  {
    ghost var s0 := SnapshotOf(store);
    ghost var candidates := Candidates(files, envs);
    firstFailure := None;
    var i := 0;
    assert candidates[..0] == [] && envs[..0] == [];
    assert s0.jobs[jobId := s0.jobs[jobId].(completedImages := 0)] == s0.jobs;
    while i < |files|
      invariant 0 <= i <= |files|
      invariant store.Valid() && Ran(SnapshotOf(store), s0, jobId, candidates, envs, i)
      invariant firstFailure == FirstFailure(envs[..i])
    {
      EnvPrefixStep(envs, i);
      var thrown := RunTask(store, s0, jobId, candidates, files, envs, i);
      if firstFailure.None? {
        firstFailure := thrown;
      }
      i := i + 1;
    }
    assert envs[..i] == envs;
  }

  /**
   * The store after a non-empty batch: one new job, holding its final
   * record, and the sets of the successful files under fresh consecutive
   * ids. Nothing is rolled back when a file fails.
   */
  ghost function AfterBatch(s0: Snapshot, files: seq<UploadedFile>, envs: seq<FileEnv>, createdAt: string): Snapshot
    requires |files| == |envs|
  {
    var jobId := s0.jobCounter;
    var created := Created(files, envs);
    Snapshot(
      s0.jobs[jobId := FinalJob(jobId, envs, createdAt)],
      jobId + 1,
      AddSets(s0.sets, created, s0.setCounter),
      s0.order + Range(s0.setCounter, |created|),
      s0.setCounter + |created|)
  }

  /**
   * Storing sets under fresh ids from `firstId` keeps every set already
   * stored, and stores the `k`-th insert under `firstId + k`.
   */
  lemma {:induction false} AddSetsSpec(m: map<nat, FaviconSet>, inserts: seq<InsertFaviconSet>, firstId: nat)
    requires forall k :: k in m ==> k < firstId
    ensures forall k :: k in m ==> k in AddSets(m, inserts, firstId) && AddSets(m, inserts, firstId)[k] == m[k]
    ensures forall id :: firstId <= id < firstId + |inserts| ==>
      id in AddSets(m, inserts, firstId) && AddSets(m, inserts, firstId)[id] == SetWithId(inserts[id - firstId], id)
    ensures forall k :: k in AddSets(m, inserts, firstId) ==> k in m || firstId <= k < firstId + |inserts|
  {
    if inserts != [] {
      var n := |inserts| - 1;
      var prefix := inserts[..n];
      var before := AddSets(m, prefix, firstId);
      AddSetsSpec(m, prefix, firstId);
      assert AddSets(m, inserts, firstId) == before[firstId + n := SetWithId(inserts[n], firstId + n)];
      forall id | firstId <= id < firstId + |inserts|
        ensures id in AddSets(m, inserts, firstId) && AddSets(m, inserts, firstId)[id] == SetWithId(inserts[id - firstId], id)
      {
        if id < firstId + n {
          assert prefix[id - firstId] == inserts[id - firstId];
        }
      }
    }
  }

  /**
   * After a non-empty batch the new job, stored under the next job id,
   * counts every file and ends `completed` exactly when every file
   * succeeded, `failed` with the first failure's message otherwise; every
   * other job and every set already stored is as it was; at most one set
   * per file is added (`AfterBatchKeepsSuccessfulSets` says which).
   */
  lemma AfterBatchSpec(s0: Snapshot, files: seq<UploadedFile>, envs: seq<FileEnv>, createdAt: string, s: Snapshot)
    requires |files| == |envs|
    requires forall k :: k in s0.sets ==> k < s0.setCounter
    requires s == AfterBatch(s0, files, envs, createdAt)
    ensures s0.jobCounter in s.jobs
    ensures s.jobs[s0.jobCounter].id == s0.jobCounter && s.jobs[s0.jobCounter].totalImages == |files|
    ensures 0 <= s.jobs[s0.jobCounter].completedImages <= s.jobs[s0.jobCounter].totalImages
    ensures s.jobs[s0.jobCounter].status == Completed <==> forall i :: 0 <= i < |envs| ==> Succeeds(envs[i])
    ensures s.jobs[s0.jobCounter].status != Completed ==>
      s.jobs[s0.jobCounter].status == Failed &&
      s.jobs[s0.jobCounter].error == Some(FailureMessage(FirstFailure(envs).value))
    ensures s.jobCounter == s0.jobCounter + 1
    ensures forall k :: k in s0.jobs && k != s0.jobCounter ==> k in s.jobs && s.jobs[k] == s0.jobs[k]
    ensures forall k :: k in s0.sets ==> k in s.sets && s.sets[k] == s0.sets[k]
    ensures s0.setCounter <= s.setCounter <= s0.setCounter + |files|
  {
    FirstFailureIff(envs);
    CompletedCountBounds(envs);
    var created := Created(files, envs);
    KeptCount(Candidates(files, envs), envs);
    assert s.jobs == s0.jobs[s0.jobCounter := FinalJob(s0.jobCounter, envs, createdAt)];
    assert s.sets == AddSets(s0.sets, created, s0.setCounter);
    AddSetsSpec(s0.sets, created, s0.setCounter);
  }

  /**
   * No rollback in the store: whether the batch ends `completed` or
   * `failed`, successful file `i` has its set stored under the fresh id
   * that counts the successful files before it; the new ids follow the old
   * order, one per successful file, and no other id appears.
   */
  lemma AfterBatchKeepsSuccessfulSets(s0: Snapshot, files: seq<UploadedFile>, envs: seq<FileEnv>,
                                       createdAt: string, s: Snapshot)
    requires |files| == |envs|
    requires forall k :: k in s0.sets ==> k < s0.setCounter
    requires s == AfterBatch(s0, files, envs, createdAt)
    ensures s.setCounter == s0.setCounter + SuccessCount(envs)
    ensures s.order == s0.order + Range(s0.setCounter, SuccessCount(envs))
    ensures forall i :: 0 <= i < |files| && Succeeds(envs[i]) ==>
      && s0.setCounter + SuccessCount(envs[..i]) !in s0.sets
      && s0.setCounter + SuccessCount(envs[..i]) in s.sets
      && s.sets[s0.setCounter + SuccessCount(envs[..i])]
           == SetWithId(SetFor(files[i], envs[i]), s0.setCounter + SuccessCount(envs[..i]))
    ensures forall k :: k in s.sets ==> k in s0.sets || s0.setCounter <= k < s.setCounter
  {
    var created := Created(files, envs);
    assert s.sets == AddSets(s0.sets, created, s0.setCounter);
    assert s.setCounter == s0.setCounter + |created|;
    assert s.order == s0.order + Range(s0.setCounter, |created|);
    CreatedSpec(files, envs);
    AddSetsSpec(s0.sets, created, s0.setCounter);
  }

  /** The update the handler applies once every task has run. */
  function FinalUpdate(failure: Option<Thrown>): JobUpdate {
    match failure
    case None => NoChange.(status := Some(Completed))
    case Some(t) => NoChange.(status := Some(Failed), error := Some(Some(FailureMessage(t))))
  }

  /** The job's final record: its counter from the tasks, its status and error from the first failure. */
  lemma FinalJobMerge(job: ProcessingJob, id: nat, envs: seq<FileEnv>, createdAt: string)
    requires job == JobWithId(InsertProcessingJob(|envs|, 0, Processing, None, createdAt), id)
    ensures Merge(job.(completedImages := CompletedCount(envs)), FinalUpdate(FirstFailure(envs)))
      == FinalJob(id, envs, createdAt)
  {
  }

  /** Creating the job, running the tasks and applying the final update give `AfterBatch`. */
  lemma BatchDone(s0: Snapshot, s1: Snapshot, s2: Snapshot, s3: Snapshot,
                  files: seq<UploadedFile>, envs: seq<FileEnv>, createdAt: string)
    requires |files| == |envs|
    requires var id := s0.jobCounter;
      s1 == s0.(jobs := s0.jobs[id := JobWithId(InsertProcessingJob(|files|, 0, Processing, None, createdAt), id)],
                jobCounter := id + 1)
    requires s0.jobCounter in s1.jobs
    requires Ran(s2, s1, s0.jobCounter, Candidates(files, envs), envs, |envs|)
    requires s0.jobCounter in s2.jobs
    requires s3 == s2.(jobs := s2.jobs[s0.jobCounter := Merge(s2.jobs[s0.jobCounter], FinalUpdate(FirstFailure(envs)))])
    ensures s3 == AfterBatch(s0, files, envs, createdAt)
  {
    var id := s0.jobCounter;
    RanAll(s2, s1, id, files, envs);
    var job1 := s1.jobs[id];
    var job2 := job1.(completedImages := CompletedCount(envs));
    UpdateTwice(s0.jobs, id, job1, job2);
    FinalJobMerge(job1, id, envs, createdAt);
    UpdateTwice(s0.jobs, id, job2, FinalJob(id, envs, createdAt));
  }

  /**
   * `/api/process-images` once the upload filter has accepted the files.
   * `envs[i]` is the world file `i`'s task runs in; `jobCreatedAt` the job's timestamp.
   */
  method ProcessImages(store: MemStorage, files: seq<UploadedFile>, envs: seq<FileEnv>, jobCreatedAt: string)
      returns (reply: UploadReply)
    requires |envs| == |files|
    requires store.Valid()
    modifies store
    ensures store.Valid()
    // An empty batch is refused before a job exists.
    ensures files == [] ==> reply == BadRequest("No files uploaded") && SnapshotOf(store) == old(SnapshotOf(store))
    ensures files != [] ==>
      && reply == (if FirstFailure(envs).None? then Processed("Images processed successfully", old(store.processingJobCurrentId))
                   else InternalError("Failed to process images"))
      && SnapshotOf(store) == AfterBatch(old(SnapshotOf(store)), files, envs, jobCreatedAt)
  {
    if |files| == 0 {
      return BadRequest("No files uploaded");
    }
    ghost var s0 := SnapshotOf(store);
    var job := store.CreateProcessingJob(InsertProcessingJob(|files|, 0, Processing, None, jobCreatedAt));
    ghost var s1 := SnapshotOf(store);
    var firstFailure := RunTasks(store, job.id, files, envs);
    ghost var s2 := SnapshotOf(store);
    if firstFailure.None? {
      var _ := store.UpdateProcessingJob(job.id, NoChange.(status := Some(Completed)));
      reply := Processed("Images processed successfully", job.id);
    } else {
      var _ := store.UpdateProcessingJob(job.id,
        NoChange.(status := Some(Failed), error := Some(Some(FailureMessage(firstFailure.value)))));
      reply := InternalError("Failed to process images");
    }
    BatchDone(s0, s1, s2, SnapshotOf(store), files, envs, jobCreatedAt);
  }

  /** The upload filter over a batch: the first file it refuses, with its error message. */
  function FilterBatch(files: seq<UploadedFile>): (r: Option<string>)
    ensures r.None? <==> forall i :: 0 <= i < |files| ==> FileFilter(files[i].mimetype).None?
    ensures r.Some? ==> r.value == InvalidTypeMessage
  {
    if files == [] then None
    else if FileFilter(files[0].mimetype).Some? then FileFilter(files[0].mimetype)
    else
      var rest := FilterBatch(files[1..]);
      assert forall i :: 1 <= i < |files| ==> files[1..][i - 1] == files[i];
      rest
  }

  /**
   * A request to `/api/process-images`: a file of a type outside the
   * allow-list stops the request before the handler, and no job is created.
   */
  method HandleUpload(store: MemStorage, files: seq<UploadedFile>, envs: seq<FileEnv>, jobCreatedAt: string)
      returns (reply: UploadReply)
    requires |envs| == |files|
    requires store.Valid()
    modifies store
    ensures store.Valid()
    ensures FilterBatch(files).Some? ==>
      reply == Rejected(InvalidTypeMessage) && SnapshotOf(store) == old(SnapshotOf(store))
    ensures FilterBatch(files).None? && files == [] ==>
      reply == BadRequest("No files uploaded") && SnapshotOf(store) == old(SnapshotOf(store))
    ensures FilterBatch(files).None? && files != [] ==>
      && reply == (if FirstFailure(envs).None? then Processed("Images processed successfully", old(store.processingJobCurrentId))
                   else InternalError("Failed to process images"))
      && SnapshotOf(store) == AfterBatch(old(SnapshotOf(store)), files, envs, jobCreatedAt)
  {
    var refused := FilterBatch(files);
    if refused.Some? {
      return Rejected(refused.value);
    }
    reply := ProcessImages(store, files, envs, jobCreatedAt);
  }
}
