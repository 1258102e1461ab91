# clusterfutures, modelled in Dafny

clusterfutures runs Python callables as jobs on a Slurm or Condor cluster and
hands back `concurrent.futures` futures for them. Its core is
`cfut/__init__.py`, which this project models and proves properties of:

- **The completion watcher** (`FileWaitThread`): a table from output-file path to a
  job id. `wait` adds or overwrites an entry, and `stop` raises the shutdown flag.
  One pass of `run` fires every watched file that exists and forgets it
  (`watcher.dfy`, class `Watcher.FileWaitThread`).
- **The executor** (`ClusterExecutor`): its job table from job id to
  (future, worker id). `submit` writes the worker's input file, starts the job,
  watches the output file and records the job. `_completion` pops the job,
  resolves its future from the worker's reply and removes both communication
  files. `Poll` joins one watcher pass to the completion handler as its callback
  (`executor.dfy`, class `Executor.ClusterExecutor`).
- **Array submission** (`SlurmExecutor.submit_array`):
  - the argument checks, made before any side effect;
  - the contiguous partition of the arguments into one batch per array slot;
  - the per-slot worker ids `base_i` and job ids `group_i`;
  - the `#SBATCH --array=0-{n-1}` directive appended to the caller's list;
  - one pending future per slot, in slot order.

  The pure parts are in `batching.dfy` (module `Batching`) and the effects in
  `Executor.ClusterExecutor.SubmitArray`.
- **The ordered generators** `map` and `map_array` (`mapping.dfy`). A generator
  is modelled by the values it yields and the remote exception, if any, that it
  raises where it stops.
- **Support:**
  - Python's `'%d' %` formatting and `str.strip()` (`text.dfy`);
  - the communication-file names and ids (`artifacts.dfy`);
  - `RemoteException` and a single-assignment future (`futures.dfy`);
  - dictionaries updated key by key (`sequences.dfy`).

Modelling choices:

- **File system.** A map from path to contents. Contents are either a call
  (`Input`) or a worker's reply (`Output`); pickling is left abstract.
- **File names.**
  - A worker's input file is `cfut.in.<workerid>.pickle` and its output file
    `cfut.out.<workerid>.pickle`. The formats `INFILE_FMT` and `OUTFILE_FMT`
    come from `cfut/remote.py`, which is not part of this model. The input name
    is the one `tests/utils.py:8-10` globs for and reads the worker id from, and the output name is the
    `OUTFILE_FMT` that `cfut.py:11` declares.
  - The `local_filename` directory prefix is dropped: `cfut/util.py` and
    `cfut/remote.py` are not part of this model.
  - The names are proved injective, and no input file is ever an output file.
- **Scheduler answers and worker ids.** The job id `_start` returns, the group
  id `_start_array` returns and the random worker id are all parameters.
  `None` stands for a scheduler call that raised.
- **Watch table order.** The watch table is a Python dict, so its iteration
  order is insertion order. It is kept as `order` beside the map `waiting`, and
  `Valid()` says the two agree and `order` has no duplicates.
- **Job and watch tables agree.** `Executor.ClusterExecutor.Valid()` adds that
  every watched output file names the job whose worker writes it, and every
  job's output file is watched for that job. Submitting under a new job id and
  a new worker keeps this, and so does a pass in which no callback raises.
- **Completion handler failures.** Each way `_completion` can raise is an
  `Outcome`:
  - `KeyError` from the pop;
  - a missing output file;
  - an output file whose contents cannot be decoded: `cloudpickle.loads`
    raises, so `_completion` raises and the future stays pending
    (`Outcome.Undecodable`);
  - `InvalidStateError` for an already resolved future (Python 3.8 and later;
    earlier versions overwrite the result);
  - a missing input file at unlink. The future has already taken the reply by
    then.

  Each one ends the handler at that point, with what was done so far.
- **Batch size arithmetic.** `batch_size` is an `int`, as in Python. A zero
  batch size raises `ZeroDivisionError` at the modulo check. A negative batch
  size that divides the argument count gives no slots: Dafny's `%` and `/`
  agree with Python's on exact division.

`submit_array` appends its directive to the caller's list in place
(`DirectiveList`), as the code does. `map_array` passes its own default list
`additional_setup_lines=[]` to it. Python evaluates that default once, so
successive `map_array` calls that rely on the default keep adding directives to
the same list. The model reproduces that in-place append.

## Model

| member | source | states |
|---|---|---|
| Text.NatToString | cfut/__init__.py:182 | `'%d' % i` for a slot number is a non-empty string of decimal digits with no leading zero, one digit exactly when i < 10 |
| Text.NatToStringInjective | cfut/__init__.py:182 | distinct slot numbers are rendered as distinct strings |
| Text.IntToString | cfut/__init__.py:202 | `'%d'` of an integer starts with `-` exactly when it is negative; a negative one is `-` followed by the digits of its magnitude, and any other is its digit string |
| Text.TrimStart | cfut/__init__.py:20 | `lstrip()` returns a suffix whose first character is not blank, having removed only blanks |
| Text.TrimEnd | cfut/__init__.py:20 | `rstrip()` returns a prefix whose last character is not blank, having removed only blanks |
| Text.Strip | cfut/__init__.py:20 | `strip()` returns a string that neither starts nor ends with a blank |
| Text.StripIsCore | cfut/__init__.py:20 | if `s[i..j]` is surrounded only by blanks and neither starts nor ends with one, `strip()` returns exactly `s[i..j]` |
| Text.StripIdempotent | cfut/__init__.py:20 | stripping twice is stripping once |
| Artifacts.InFileInjective | cfut/__init__.py:123 | distinct workers write distinct input files |
| Artifacts.OutFileInjective | cfut/__init__.py:131 | distinct workers are watched through distinct output files |
| Artifacts.InFileIsNotOutFile | cfut/__init__.py:111-112 | no worker's input file is any worker's output file, so the two unlinks remove two different paths |
| Artifacts.SlotWorkerIdInjective | cfut/__init__.py:182 | two slots of one array never share a worker id |
| Artifacts.SlotJobIdInjective | cfut/__init__.py:202 | two slots of one array never share a job id |
| Futures.RemoteExceptionText | cfut/__init__.py:19-20 | `str(exc)` is a newline followed by exactly the error text between its leading and trailing blanks |
| Futures.Future.constructor | cfut/__init__.py:118 | a new future is pending |
| Futures.Future.SetResult | cfut/__init__.py:106 | a pending future takes the value and reports success; a resolved one is refused and left as it was |
| Futures.Future.SetException | cfut/__init__.py:108 | a pending future takes the exception and reports success; a resolved one is refused and left as it was |
| Sequences.AssignedKeys | cfut/__init__.py:213 | assigning a list of keys to a dict adds exactly those keys, and every other key keeps its value |
| Sequences.AssignedAt | cfut/__init__.py:208-213 | when the keys are distinct, every assigned key ends up holding its own value |
| Watcher.RegisteredMembers | cfut/__init__.py:48 | registering paths in the table adds exactly those paths to its keys |
| Watcher.PresentMembers | cfut/__init__.py:57-60 | a path fires in a pass exactly when it is watched and its file exists |
| Watcher.AbsentMembers | cfut/__init__.py:57-60 | a path is still watched after a pass exactly when it was watched and its file does not exist |
| Watcher.PollSplitsKeys | cfut/__init__.py:57-60 | the fired paths and the kept paths are together exactly the watched paths, none lost or repeated |
| Watcher.PollKeepsKeysDistinct | cfut/__init__.py:57-60 | in a table without duplicates no path fires twice and none is kept twice |
| Watcher.DeletedMembers | cfut/__init__.py:60 | deleting a list of keys leaves exactly the other keys, each with its value |
| Watcher.DeletedPresent | cfut/__init__.py:57-60 | deleting, in table order, every watched path whose file exists removes exactly the existing files from the table |
| Watcher.PollDone | cfut/__init__.py:57-60 | after a pass every fired path was watched, the kept paths are distinct, and they are exactly the watched paths whose files do not exist |
| Watcher.PolledKeysDoNotExist | cfut/__init__.py:57-60 | after a pass no watched path is an existing file |
| Watcher.FileWaitThread.constructor | cfut/__init__.py:26-36 | a new watcher watches nothing and is not shut down |
| Watcher.FileWaitThread.Stop | cfut/__init__.py:38-41 | `stop()` sets the shutdown flag and leaves the table as it is |
| Watcher.FileWaitThread.Wait | cfut/__init__.py:43-48 | `wait(f, v)` maps f to v, overwriting any earlier value; f goes to the end of the order only if it is new; nothing else changes |
| Watcher.FileWaitThread.PollOnce | cfut/__init__.py:50-61 | a shut-down watcher fires nothing and changes nothing. Otherwise the pass fires the stored value of every watched file that exists, once each, in table order, and removes exactly those entries; the others keep their values and their order |
| Batching.SlotCount | cfut/__init__.py:170-180 | the checks run before anything is written, in source order, and each failure is reported exactly when its check is the first to fail: kwargs neither empty nor one per argument; then a zero batch size (the modulo); then an argument count the batch size does not divide. On success `num_jobs * batch_size == len(args)` |
| Batching.SlotsNeedNonNegativeBatch | cfut/__init__.py:180-181 | a positive number of slots implies the batch size is not negative |
| Batching.ArrayKwargs | cfut/__init__.py:170-171 | with no kwargs, one empty mapping per argument; otherwise the given ones |
| Batching.Batches | cfut/__init__.py:181-185 | the partition has one batch per slot, each of `batch_size` elements |
| Batching.BatchAt | cfut/__init__.py:183-185 | batch i is exactly the slice `args[bs*i : bs*(i+1)]`, and that slice is in range |
| Batching.ConcatBatches | cfut/__init__.py:181-185 | the batches read one after another are the original list |
| Batching.ArrayBatchesCover | cfut/__init__.py:180-185 | for a positive batch size the batches of a successful submission cover the arguments in order, each of `batch_size` elements (the same holds for the kwargs) |
| Batching.SlotWorkerIdsDistinct | cfut/__init__.py:182 | the worker ids of one array are pairwise distinct |
| Batching.SlotInFilesDistinct | cfut/__init__.py:187 | the input files of one array are pairwise distinct, so no slot overwrites another's input |
| Batching.SlotOutFilesDistinct | cfut/__init__.py:210 | the watched output files of one array are pairwise distinct |
| Batching.SlotJobIdsDistinct | cfut/__init__.py:202 | the job ids of one array are pairwise distinct |
| Batching.WriteSlotInputs | cfut/__init__.py:181-189 | the first loop returns the worker ids `base_0 … base_{n-1}` in order, and the file system it leaves holds each slot's batch in that slot's input file |
| Batching.SlotInputStep | cfut/__init__.py:182-189 | one iteration writes slot i's slice of args and kwargs to slot i's input file and appends slot i's worker id |
| Batching.SlotInputAt | cfut/__init__.py:181-189 | after the loop, slot i's input file holds exactly `(args[bs*i : bs*(i+1)], kwargs[bs*i : bs*(i+1)])` |
| Batching.SlotInputsKeepOthers | cfut/__init__.py:181-189 | the loop adds exactly the slots' input files and changes no other path |
| Batching.SlotJobsRegistered | cfut/__init__.py:208-213 | after registration, slot i's job id maps to slot i's future and worker id |
| Batching.SlotWatchesRegistered | cfut/__init__.py:208-210 | after registration the watcher maps slot i's output file to slot i's job id |
| Executor.Resolution | cfut/__init__.py:103-108 | a file holding a reply resolves the future, never to pending; a file holding no reply does not |
| Executor.RaisedReplyText | cfut/__init__.py:105-108 | a failed reply becomes a remote exception whose text is a newline and the stripped error |
| Executor.ClusterExecutor.constructor | cfut/__init__.py:67-78 | a new executor has no jobs and a fresh watcher with nothing to watch, so the job and watch tables agree |
| Executor.ClusterExecutor.Submit | cfut/__init__.py:116-135 | the input file holds the call. If the scheduler refused, nothing is recorded and the watcher is unchanged. Otherwise a fresh pending future is returned and recorded with the worker under the job id, and the output file is watched for that job id. With a new job id and worker, tables that agreed still agree |
| Executor.ClusterExecutor.Register | cfut/__init__.py:118-134 | a fresh pending future, recorded under the job id with the worker, with the output file watched for that job id; with a new job id and worker, tables that agreed still agree |
| Executor.ClusterExecutor.Completion | cfut/__init__.py:92-112 | the job always leaves the table (`KeyError` if absent), with the notification exactly when the table becomes empty. The handler stops at the first missing output file, undecodable reply, already-resolved future or missing input file. Otherwise the future takes the reply's value or remote exception and exactly the two communication files are removed. Each outcome holds exactly when its condition does |
| Executor.ClusterExecutor.Poll | cfut/__init__.py:50-61 | one pass with `_completion` as callback. The watch table loses exactly the existing files. The handler runs on their job ids in table order and completes a job exactly when the job is still recorded, its reply and input file are still there after the earlier callbacks, and its future is still pending. Each completed job leaves the table, its two files are removed and its future holds its reply. The first callback that does not complete ends the thread. It raises `KeyError` for a job that is gone, then, in the handler's order, for a missing output file, a reply that cannot be decoded, an already resolved future or a missing input file. In the last case its future already holds the reply; otherwise its future keeps its state. Futures of jobs not handled keep their states. When no callback raises, tables that agreed still agree |
| Executor.ClusterExecutor.RunCallbacks | cfut/__init__.py:57-61 | the callbacks of a pass leave the watch table alone, and the thread ends exactly when one of them raises; which error it raises and the state of its future are as in `CompleteAll` |
| Executor.ClusterExecutor.CompleteAll | cfut/__init__.py:57-60 | the callbacks of a pass, in order: each completes exactly when its job is recorded, its reply and input file remain and its future is pending, and the first that does not ends the pass. Completed futures hold their replies. The failing callback raises the error of the first handler step that fails, and its future holds the reply exactly when only the input file was missing, otherwise keeping its state. Every future of a job not handled keeps its state |
| Executor.ClusterExecutor.CallbackStep | cfut/__init__.py:59 | one callback removes its job from the table and completes exactly when the job was still recorded, its reply and input file remain and its future is pending. Only that future can change. When it completes it holds the reply and the job's two files are gone. Otherwise the files are as they were, the error is the first failing step of the handler, and the future holds the reply exactly when only the input file was missing |
| Executor.CallbackOutcome | cfut/__init__.py:92-112 | the handler's own outcome, read in the middle of a pass, is `Completed` exactly when the job is still recorded and not yet handled, its reply and input file remain and its future is pending; otherwise it is the error of the first step that fails, stated against the future states before the pass. Every other future keeps its state |
| Executor.PendingAt | cfut/__init__.py:57-60 | at the n-th callback of a pass a recorded future is pending exactly when it was pending before the pass and no earlier callback of the pass handled its job |
| Executor.CallbackKeeps | cfut/__init__.py:57-60 | a callback that changes at most its own pending future leaves every other future as it was, and the futures earlier callbacks completed still hold their replies |
| Executor.SubmitSquare | tests/test_slurm.py:10-18 | submitting `square(2)` under job id `000000`, its worker replying 4 and one watcher pass: no callback raises, the future holds 4, and both communication files are gone |
| Executor.PassSquare | tests/test_slurm.py:16-18 | with the one job of that scenario recorded and watched, its future pending and its reply 4 written, one watcher pass raises nothing, resolves the future to 4 and leaves no communication file |
| Executor.PassWithoutInput | cfut/__init__.py:101-111 | the same pass with the input file missing raises at the unlink: the job is popped, the future already holds 4, the reply stays on disk and the watcher is stopped |
| Executor.ClusterExecutor.Shutdown | cfut/__init__.py:137-145 | the watcher is stopped; the job and watch tables are unchanged |
| Executor.ClusterExecutor.SubmitArray | cfut/__init__.py:167-215 | failed checks raise before any effect. Otherwise the slot inputs are written and exactly one array directive is appended to the caller's list. A refusing scheduler registers nothing; otherwise one fresh pending future per slot, in slot order, is recorded under `group_i` with worker `base_i` and watched through its output file. When none of the slots' job ids or output files was in use, tables that agreed still agree |
| Executor.ClusterExecutor.RegisterSlots | cfut/__init__.py:207-215 | the second loop records, in slot order, one fresh pending future per slot in the job table, the watch table and its order. With distinct new job ids and output files, tables that agreed still agree |
| Executor.ClusterExecutor.SubmitEach | cfut/__init__.py:243-245 | `map` submits one job per argument, in order, until the scheduler first refuses. One future per accepted job, each recorded in order. The input files written are those of the accepted arguments, plus the refused one's |
| Executor.InputsWrittenInOrder | cfut/__init__.py:243-245 | the files `map` writes are the first n arguments' input files, each holding its own argument, written in argument order |
| Executor.LeadingIdsAt | cfut/__init__.py:243-245 | when the scheduler accepted every submission before the i-th, the i-th is accepted exactly when the run of accepted ids reaches past it, and its id is the one the scheduler returned |
| Executor.TrackedRegistered | cfut/__init__.py:207-213 | recording jobs under distinct new job ids, for workers whose output files are distinct and not yet watched, keeps the job and watch tables in agreement |
| Executor.TrackedPoll | cfut/__init__.py:57-60 | a pass whose callbacks all completed keeps the job and watch tables in agreement: the jobs removed are those whose output files left the watch table |
| Executor.HandlerRemovesOwnFile | cfut/__init__.py:101-112 | while the tables agree, the handler for a watched file reads and removes that file and an input file, and never another watched file |
| Executor.CleanedMembers | cfut/__init__.py:111-112 | the completion handlers only remove files; what is left is unchanged |
| Mapping.Ordered | cfut/__init__.py:246-247 | the ordered generator yields the results of the leading successful futures in order, then raises the first failure, or yields all results if none failed |
| Mapping.Chained | cfut/__init__.py:258-268 | with batches, either every slot succeeded and the stream is the concatenation of the slot results, or the first failure is raised before anything is yielded |
| Mapping.ArrayOrdered | cfut/__init__.py:258-268 | a batch size of one yields slot results as `map` does; a larger one yields the flattened stream; any other yields nothing and raises a failure if there is one |
| Mapping.MapKeepsOrder | cfut/__init__.py:236-247 | if the job for each argument returned `f(arg)`, `map` yields `f` of every argument in argument order, whatever order the jobs finished in |
| Mapping.MapSquares | cfut/__init__.py:243-247 | mapping squaring over `range(4)` yields 0, 1, 4, 9 in that order |
| Mapping.MapStopsAtFailure | cfut/__init__.py:246-247 | a failed job stops `map`: it yields the results before it, then raises that job's exception |
| Mapping.MapArrayKeepsOrder | cfut/__init__.py:249-268 | with batches of more than one argument, `map_array` yields `f` of every argument in argument order |
| Mapping.YieldOrdered | cfut/__init__.py:246-247 | the generator loop of `map` yields exactly `Ordered` of the futures' states |
| Mapping.YieldArray | cfut/__init__.py:258-268 | the generator loop of `map_array` yields exactly `ArrayOrdered` of the batch size and the futures' states |

## Left out

- Threads, locks, the condition variable, `Thread.start`/`join` and `time.sleep`.
  Every method runs without interruption, and one pass of the watcher loop is
  one call of `Poll`.
- Executor.ClusterExecutor.Submit, Executor.ClusterExecutor.Register and
  Executor.ClusterExecutor.RegisterSlots: `submit` registers the output file
  with the watcher under the watcher's lock (cfut/__init__.py:131) and records
  the job under `jobs_lock` (133-134); each iteration of `submit_array`'s second
  loop does the same (210, then 212-213). These two critical sections are fused
  into one step here. A watcher pass between them that finds the output file
  already present would make `_completion` raise `KeyError` at the pop (line 95)
  and end the watcher thread; the model cannot show that interleaving.
- Executor.ClusterExecutor.Shutdown: `shutdown(wait=True)` first blocks until
  the job table is empty. That is a condition-variable wait, so only the stop
  is modelled.
- `cloudpickle` and real file I/O. File contents are abstract values, and
  existence is membership in the file-system map.
- `slurm.submit`, `slurm.submit_array`, `condor.submit`, `random_string` and
  `local_filename`. Their results are parameters.
- `_cleanup`: the model treats it as never raising. Slurm's version
  (cfut/__init__.py:157-165) catches `OSError`. Condor's version
  (cfut/__init__.py:227-229) does not. A missing Condor output or error file
  therefore makes `_completion` raise after the future is resolved and the
  communication files are removed, and the watcher thread ends.
- The Condor log file, the debug prints and the `keep_logs` switch. The extra
  setup lines passed to `_start` are not tracked either, since the scheduler is
  abstract.
- `as_completed` (unordered `map` and `map_array`): its order depends on
  timing.
- `cfut.py` (the legacy Python 2 module), `slurm_example.py` and the tests.
- The `with executor:` block around `map` and `map_array`, which calls
  `shutdown` on exit.
- Mapping.YieldOrdered: the futures are required to be resolved. `fut.result()`
  blocking until a job finishes is not modelled.
- Mapping.YieldArray: the futures are required to be resolved. `fut.result()`
  blocking until a job finishes is not modelled.
- Executor.ClusterExecutor.Poll: in Python, a raising callback kills the thread
  without setting `shutdown`, and leaves its entry and later ones in the table.
  The model marks the watcher stopped and leaves the table as a full pass would.
  No later step reads the table of a dead thread.
- Watcher.FileWaitThread.PollOnce: file existence is read from one snapshot
  per pass. Python checks each file as it reaches it. The completion handler
  only removes the files of the job it completes (`HandlerRemovesOwnFile`), so
  the two agree while worker ids and job ids are distinct.
- Executor.ClusterExecutor.SubmitEach: does not state that the returned futures
  are fresh and pending. `Submit` states it for each call. Nor does it state
  that the job and watch tables still agree; `Submit` states that too.
- Executor.ClusterExecutor.SubmitArray: does not state that the returned
  futures are distinct objects. Each one is fresh and pending.
- Executor.ClusterExecutor.RegisterSlots: does not state that the returned
  futures are distinct objects. Each one is fresh and pending.
- `submit_array`'s `int(len(args)/batch_size)` uses float division. For the
  exact quotients that pass the divisibility check it equals integer division;
  float rounding for very large counts is not modelled.
