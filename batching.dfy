/**
 * The pure part of `SlurmExecutor.submit_array`: the checks made before any
 * side effect, the contiguous partition of the arguments into one batch per
 * array slot, the identifiers derived for each slot, and the loop that writes
 * one input file per slot.
 */
module Batching {
  import opened Text
  import opened Sequences
  import opened Artifacts

  /** Why a submission raised instead of returning futures. */
  datatype SubmitError =
    | KwargsMismatch   // NotImplementedError: kwargs given but not one per argument
    | ZeroDivision     // ZeroDivisionError: `len(args) % 0`
    | Indivisible      // NotImplementedError: the arguments do not split into whole batches
    | SchedulerFailed  // the scheduler call raised after the inputs were written

  datatype Result<T> = Success(value: T) | Failure(error: SubmitError)

  /**
   * The checks `submit_array` makes, in order, before writing anything, and
   * `num_jobs` when they pass. Python's `%` by a negative batch size is zero
   * exactly when Dafny's is, and `len(args)/batch_size` is then an exact
   * quotient, so both agree with Dafny's operators here.
   */
  function SlotCount(nArgs: nat, nKwargs: nat, batchSize: int): (r: Result<int>)
    ensures r.Success? <==> (nKwargs == 0 || nKwargs == nArgs) && batchSize != 0 && nArgs % batchSize == 0
    ensures r == Failure(KwargsMismatch) <==> nKwargs != 0 && nKwargs != nArgs
    ensures r == Failure(ZeroDivision) <==> (nKwargs == 0 || nKwargs == nArgs) && batchSize == 0
    ensures r == Failure(Indivisible) <==> (nKwargs == 0 || nKwargs == nArgs) && batchSize != 0 && nArgs % batchSize != 0
    ensures r.Success? ==> r.value * batchSize == nArgs
  {
    if nKwargs != 0 && nKwargs != nArgs then Failure(KwargsMismatch)
    else if batchSize == 0 then Failure(ZeroDivision)
    else if nArgs % batchSize != 0 then Failure(Indivisible)
    else Success(nArgs / batchSize)
  }

  /** A positive number of slots can only come from a batch size that is not negative. */
  lemma SlotsNeedNonNegativeBatch(n: int, batchSize: int, len: nat)
    requires n * batchSize == len && 0 < n
    ensures 0 <= batchSize
  {
  }

  /** The keyword arguments actually used: one empty dict per argument when none are given. */
  function ArrayKwargs<V>(nArgs: nat, kwargs: seq<map<string, V>>): (r: seq<map<string, V>>)
    ensures |kwargs| == 0 ==> |r| == nArgs && forall i :: 0 <= i < nArgs ==> r[i] == map[]
    ensures |kwargs| != 0 ==> r == kwargs
  {
    if |kwargs| == 0 then seq(nArgs, _ => map[]) else kwargs
  }

  /** The number of iterations of `range(0, n)`. */
  function Slots(n: int): (r: nat)
    ensures 0 < n ==> r == n
    ensures n <= 0 ==> r == 0
  {
    if n < 0 then 0 else n
  }

  /** `xs` cut into `n` consecutive pieces of `size` elements each. */
  function Batches<T>(xs: seq<T>, size: nat, n: nat): (r: seq<seq<T>>)
    requires |xs| == size * n
    ensures |r| == n
    ensures forall i :: 0 <= i < n ==> |r[i]| == size
  {
    if n == 0 then []
    else
      assert size * n == size * (n - 1) + size;
      [xs[..size]] + Batches(xs[size..], size, n - 1)
  }

  /** Batch i is the slice `xs[size*i : size*(i+1)]` that the submission loop takes. */
  lemma {:induction false} BatchAt<T>(xs: seq<T>, size: nat, n: nat, i: nat)
    requires |xs| == size * n && i < n
    ensures 0 <= size * i <= size * (i + 1) <= |xs|
    ensures Batches(xs, size, n)[i] == xs[size * i..size * (i + 1)]
  {
    assert size * n == size * (n - 1) + size;
    assert size * (i + 1) == size * i + size;
    if i == 0 {
      assert size * 0 == 0 && size * 1 == size;
    } else {
      assert size * i == size * (i - 1) + size;
      BatchAt(xs[size..], size, n - 1, i - 1);
    }
  }

  /** The batches, read one after another, are the original sequence. */
  lemma {:induction false} ConcatBatches<T>(xs: seq<T>, size: nat, n: nat)
    requires |xs| == size * n
    ensures Concat(Batches(xs, size, n)) == xs
  {
    if n > 0 {
      assert size * n == size * (n - 1) + size;
      var r := Batches(xs, size, n);
      assert r[1..] == Batches(xs[size..], size, n - 1);
      ConcatBatches(xs[size..], size, n - 1);
      assert xs[..size] + xs[size..] == xs;
    }
  }

  /** The batches of an array submission: none unless there is at least one slot. */
  function ArrayBatches<T>(xs: seq<T>, batchSize: int, n: int): (r: seq<seq<T>>)
    requires n * batchSize == |xs|
    ensures |r| == Slots(n)
  {
    if n <= 0 then []
    else Batches(xs, batchSize, n)
  }

  /** The worker ids of the first n slots: `base_0, base_1, ...`. */
  function SlotWorkerIds(base: WorkerId, n: nat): seq<WorkerId>
  {
    seq(n, i requires 0 <= i => SlotWorkerId(base, i))
  }

  /** The per-slot job ids `'%d_%d' % (group, i)` of the first n slots. */
  function SlotJobIds(group: int, n: nat): seq<JobId>
  {
    seq(n, i requires 0 <= i => SlotJobId(group, i))
  }

  /** The input files of the given workers. */
  function InFiles(workerids: seq<WorkerId>): seq<string>
  {
    seq(|workerids|, i requires 0 <= i < |workerids| => InFile(workerids[i]))
  }

  /** The output files of the given workers, the paths the watcher is given. */
  function OutFiles(workerids: seq<WorkerId>): seq<string>
  {
    seq(|workerids|, i requires 0 <= i < |workerids| => OutFile(workerids[i]))
  }

  /** The input files of the first n slots. */
  function SlotInFiles(base: WorkerId, n: nat): seq<string>
  {
    InFiles(SlotWorkerIds(base, n))
  }

  /** The output files of the first n slots. */
  function SlotOutFiles(base: WorkerId, n: nat): seq<string>
  {
    OutFiles(SlotWorkerIds(base, n))
  }

  /** What the input file of each slot holds: its batch of arguments and keyword arguments. */
  function SlotPayloads<V>(argBatches: seq<seq<V>>, kwargBatches: seq<seq<map<string, V>>>): (r: seq<Blob<V>>)
    requires |argBatches| == |kwargBatches|
    ensures |r| == |argBatches|
    ensures forall i :: 0 <= i < |r| ==> r[i] == Input(Batch(argBatches[i], kwargBatches[i]))
  {
    seq(|argBatches|, i requires 0 <= i < |argBatches| => Input(Batch(argBatches[i], kwargBatches[i])))
  }

  /** The slots of one array never share a worker id. */
  lemma SlotWorkerIdsDistinct(base: WorkerId, n: nat)
    ensures NoDup(SlotWorkerIds(base, n))
  {
    var ids := SlotWorkerIds(base, n);
    forall i, j | 0 <= i < j < n
      ensures ids[i] != ids[j]
    {
      if ids[i] == ids[j] {
        SlotWorkerIdInjective(base, i, j);
      }
    }
    NoDupByIndex(ids);
  }

  /** The slots of one array never share an input file. */
  lemma SlotInFilesDistinct(base: WorkerId, n: nat)
    ensures NoDup(SlotInFiles(base, n))
  {
    var paths := SlotInFiles(base, n);
    forall i, j | 0 <= i < j < n
      ensures paths[i] != paths[j]
    {
      if paths[i] == paths[j] {
        InFileInjective(SlotWorkerId(base, i), SlotWorkerId(base, j));
        SlotWorkerIdInjective(base, i, j);
      }
    }
    NoDupByIndex(paths);
  }

  /** The slots of one array never share an output file. */
  lemma SlotOutFilesDistinct(base: WorkerId, n: nat)
    ensures NoDup(SlotOutFiles(base, n))
  {
    var paths := SlotOutFiles(base, n);
    forall i, j | 0 <= i < j < n
      ensures paths[i] != paths[j]
    {
      if paths[i] == paths[j] {
        OutFileInjective(SlotWorkerId(base, i), SlotWorkerId(base, j));
        SlotWorkerIdInjective(base, i, j);
      }
    }
    NoDupByIndex(paths);
  }

  /** The slots of one array never share a job id. */
  lemma SlotJobIdsDistinct(group: int, n: nat)
    ensures NoDup(SlotJobIds(group, n))
  {
    var ids := SlotJobIds(group, n);
    forall i, j | 0 <= i < j < n
      ensures ids[i] != ids[j]
    {
      if ids[i] == ids[j] {
        SlotJobIdInjective(group, i, j);
      }
    }
    NoDupByIndex(ids);
  }

  /**
   * The first loop of `submit_array`: for each slot, write its batch to its
   * input file, and collect the slot's worker id.
   */
  method WriteSlotInputs<V>(fs: FileSystem<V>, base: WorkerId, args: seq<V>, kwargs: seq<map<string, V>>,
                           batchSize: int, n: int)
    returns (workerids: seq<WorkerId>, fs': FileSystem<V>)
    requires n * batchSize == |args| == |kwargs|
    ensures workerids == SlotWorkerIds(base, Slots(n))
    ensures fs' == SlotInputs(fs, base, args, kwargs, batchSize, n, Slots(n))
  {
    var count := Slots(n);
    workerids := [];
    fs' := fs;
    var i := 0;
    while i < count
      invariant 0 <= i <= count
      invariant workerids == SlotWorkerIds(base, i)
      invariant fs' == SlotInputs(fs, base, args, kwargs, batchSize, n, i)
    {
      var workerid := SlotWorkerId(base, i);
      SlotInputStep(fs, base, args, kwargs, batchSize, n, i);
      var arg := args[batchSize * i..batchSize * (i + 1)];
      var kwarg := kwargs[batchSize * i..batchSize * (i + 1)];
      fs' := fs'[InFile(workerid) := Input(Batch(arg, kwarg))];
      workerids := workerids + [workerid];
      i := i + 1;
    }
  }

  /** The file system once the first i slots' inputs are written. */
  ghost function SlotInputs<V>(fs: FileSystem<V>, base: WorkerId, args: seq<V>, kwargs: seq<map<string, V>>,
                               batchSize: int, n: int, i: nat): FileSystem<V>
    requires n * batchSize == |args| == |kwargs| && i <= Slots(n)
  {
    Assigned(fs, SlotInFiles(base, Slots(n))[..i],
             SlotPayloads(ArrayBatches(args, batchSize, n), ArrayBatches(kwargs, batchSize, n))[..i])
  }

  /** One iteration of the input-writing loop writes slot i's slice of the arguments to its input file. */
  lemma SlotInputStep<V>(fs: FileSystem<V>, base: WorkerId, args: seq<V>, kwargs: seq<map<string, V>>,
                         batchSize: int, n: int, i: nat)
    requires n * batchSize == |args| == |kwargs| && i < Slots(n)
    ensures 0 <= batchSize * i <= batchSize * (i + 1) <= |args|
    ensures SlotWorkerIds(base, i + 1) == SlotWorkerIds(base, i) + [SlotWorkerId(base, i)]
    ensures SlotInputs(fs, base, args, kwargs, batchSize, n, i + 1)
         == SlotInputs(fs, base, args, kwargs, batchSize, n, i)[InFile(SlotWorkerId(base, i)) :=
              Input(Batch(args[batchSize * i..batchSize * (i + 1)], kwargs[batchSize * i..batchSize * (i + 1)]))]
  {
    var paths := SlotInFiles(base, Slots(n));
    var payloads := SlotPayloads(ArrayBatches(args, batchSize, n), ArrayBatches(kwargs, batchSize, n));
    BatchAt(args, batchSize, n, i);
    BatchAt(kwargs, batchSize, n, i);
    assert paths[..i + 1] == paths[..i] + [paths[i]];
    assert payloads[..i + 1] == payloads[..i] + [payloads[i]];
    AssignedSnoc(fs, paths[..i], payloads[..i], paths[i], payloads[i]);
  }

  /** After the input-writing loop, the input file of slot i holds that slot's slice of the arguments. */
  lemma SlotInputAt<V>(fs: FileSystem<V>, base: WorkerId, args: seq<V>, kwargs: seq<map<string, V>>,
                       batchSize: int, n: int, i: nat)
    requires n * batchSize == |args| == |kwargs| && i < Slots(n)
    ensures 0 <= batchSize * i <= batchSize * (i + 1) <= |args|
    ensures var fs' := SlotInputs(fs, base, args, kwargs, batchSize, n, Slots(n));
      && InFile(SlotWorkerId(base, i)) in fs'
      && fs'[InFile(SlotWorkerId(base, i))]
         == Input(Batch(args[batchSize * i..batchSize * (i + 1)], kwargs[batchSize * i..batchSize * (i + 1)]))
  {
    SlotsNeedNonNegativeBatch(n, batchSize, |args|);
    BatchAt(args, batchSize, n, i);
    BatchAt(kwargs, batchSize, n, i);
    var count := Slots(n);
    var paths := SlotInFiles(base, count);
    var payloads := SlotPayloads(ArrayBatches(args, batchSize, n), ArrayBatches(kwargs, batchSize, n));
    var fs' := SlotInputs(fs, base, args, kwargs, batchSize, n, count);
    assert paths[i] in fs' && fs'[paths[i]] == payloads[i] by {
      assert paths[..count] == paths && payloads[..count] == payloads;
      SlotInFilesDistinct(base, count);
      AssignedAt(fs, paths, payloads);
    }
  }

  /** The input-writing loop changes no path other than the slots' input files. */
  lemma SlotInputsKeepOthers<V>(fs: FileSystem<V>, base: WorkerId, args: seq<V>, kwargs: seq<map<string, V>>,
                                batchSize: int, n: int)
    requires n * batchSize == |args| == |kwargs|
    ensures var fs' := SlotInputs(fs, base, args, kwargs, batchSize, n, Slots(n));
      && (forall p :: p in fs' <==> p in fs || p in SlotInFiles(base, Slots(n)))
      && (forall p :: p in fs && p !in SlotInFiles(base, Slots(n)) ==> fs'[p] == fs[p])
  {
    var count := Slots(n);
    var paths := SlotInFiles(base, count);
    var payloads := SlotPayloads(ArrayBatches(args, batchSize, n), ArrayBatches(kwargs, batchSize, n));
    assert paths[..count] == paths && payloads[..count] == payloads;
    AssignedKeys(fs, paths, payloads);
  }

  /** Job-table entries: each future paired with its worker id (`zip`). */
  function Entries<F>(futs: seq<F>, workerids: seq<WorkerId>): (r: seq<(F, WorkerId)>)
    requires |futs| == |workerids|
    ensures |r| == |futs|
    ensures forall i :: 0 <= i < |futs| ==> r[i] == (futs[i], workerids[i])
  {
    seq(|futs|, i requires 0 <= i < |futs| => (futs[i], workerids[i]))
  }

  /** The job-table entries of the slots: each slot's future paired with its worker id. */
  function SlotEntries<F>(futs: seq<F>, base: WorkerId): seq<(F, WorkerId)>
  {
    Entries(futs, SlotWorkerIds(base, |futs|))
  }

  /** After registration every slot's job id maps to that slot's future and worker id. */
  lemma SlotJobsRegistered<F>(jobs: map<JobId, (F, WorkerId)>, group: int, base: WorkerId, futs: seq<F>)
    ensures var jobs' := Assigned(jobs, SlotJobIds(group, |futs|), SlotEntries(futs, base));
      forall i :: 0 <= i < |futs| ==> SlotJobId(group, i) in jobs' && jobs'[SlotJobId(group, i)] == (futs[i], SlotWorkerId(base, i))
  {
    var ids := SlotJobIds(group, |futs|);
    var entries := SlotEntries(futs, base);
    var jobs' := Assigned(jobs, ids, entries);
    SlotJobIdsDistinct(group, |futs|);
    AssignedAt(jobs, ids, entries);
    forall i | 0 <= i < |futs|
      ensures SlotJobId(group, i) in jobs' && jobs'[SlotJobId(group, i)] == (futs[i], SlotWorkerId(base, i))
    {
      assert ids[i] == SlotJobId(group, i) && entries[i] == (futs[i], SlotWorkerId(base, i));
    }
  }

  /** After registration the watcher waits on every slot's output file for that slot's job id. */
  lemma SlotWatchesRegistered(waiting: map<string, JobId>, group: int, base: WorkerId, n: nat)
    ensures var waiting' := Assigned(waiting, SlotOutFiles(base, n), SlotJobIds(group, n));
      forall i :: 0 <= i < n ==>
        OutFile(SlotWorkerId(base, i)) in waiting' && waiting'[OutFile(SlotWorkerId(base, i))] == SlotJobId(group, i)
  {
    var paths := SlotOutFiles(base, n);
    var ids := SlotJobIds(group, n);
    var waiting' := Assigned(waiting, paths, ids);
    SlotOutFilesDistinct(base, n);
    AssignedAt(waiting, paths, ids);
    forall i | 0 <= i < n
      ensures OutFile(SlotWorkerId(base, i)) in waiting' && waiting'[OutFile(SlotWorkerId(base, i))] == SlotJobId(group, i)
    {
      assert paths[i] == OutFile(SlotWorkerId(base, i)) && ids[i] == SlotJobId(group, i);
    }
  }

  /** Read back in slot order, the batches of a successful submission are the arguments. */
  lemma ArrayBatchesCover<T>(xs: seq<T>, batchSize: int, n: int)
    requires n * batchSize == |xs| && 0 < batchSize
    ensures Concat(ArrayBatches(xs, batchSize, n)) == xs
    ensures forall b :: b in ArrayBatches(xs, batchSize, n) ==> |b| == batchSize
  {
    if n > 0 {
      ConcatBatches(xs, batchSize, n);
    }
  }
}
