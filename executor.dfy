/**
 * The executor: its job table from job id to (future, worker id), single and
 * array submission, and the completion handler the watcher calls back.
 * The scheduler's answers (a job id, or an array's group id) and the random
 * worker ids are parameters; `None` stands for a scheduler call that raised.
 */
module Executor {
  import opened Text
  import opened Sequences
  import opened Artifacts
  import opened Futures
  import opened Watcher
  import opened Batching

  /** How one call of the completion handler ended. */
  datatype Outcome =
    | Completed        // future resolved, both communication files removed
    | UnknownJob       // KeyError from `jobs.pop`
    | OutputMissing    // the output file could not be opened
    | Undecodable      // the output file does not hold a (success, value) reply
    | AlreadyResolved  // InvalidStateError: the future was resolved before
    | InputMissing     // the input file was already gone when unlinked

  /** The state a reply gives its future; None when the file holds no reply. */
  function Resolution<V>(b: Blob<V>): (r: Option<FutureState<V>>)
    ensures r.Some? <==> b.Output?
    ensures r.Some? ==> !r.value.Pending?
  {
    match b
    case Output(Returned(v)) => Some(Ok(v))
    case Output(Raised(error)) => Some(Err(RemoteException(error)))
    case Input(_) => None
  }

  /**
   * A worker's failure reaches the caller as a remote exception whose text is
   * a newline and the error with its surrounding blanks removed.
   */
  lemma RaisedReplyText<V>(error: string)
    ensures var r := Resolution<V>(Output(Raised(error)));
      r.Some? && r.value.Err? && r.value.exc.Str() == "\n" + Strip(error)
  {
  }

  /** A caller's list of extra job-script lines, which array submission appends to in place. */
  class DirectiveList {
    var lines: seq<string>

    constructor (lines: seq<string>)
      ensures this.lines == lines
    {
      this.lines := lines;
    }
  }

  class ClusterExecutor<V> {
    var jobs: map<JobId, (Future<V>, WorkerId)>
    const watcher: FileWaitThread<string, JobId>

    /** The watch table is well formed, and it and the job table agree. */
    ghost predicate Valid()
      reads this, watcher
    {
      watcher.Valid() && Tracked(jobs, watcher.waiting)
    }

    /** A fresh executor: no jobs, and a watcher with nothing to wait for. */
    constructor ()
      ensures jobs == map[]
      ensures fresh(watcher) && Valid()
      ensures watcher.order == [] && watcher.waiting == map[] && !watcher.shutdown
    {
      jobs := map[];
      watcher := new FileWaitThread();
    }

    /**
     * `submit(fun, *args, **kwargs)`: write the call to the worker's input
     * file, start the job, have the watcher wait for the output file, and
     * record the job. When the scheduler call raises, the input file stays
     * written and nothing is recorded.
     */
    method Submit(args: seq<V>, kwargs: map<string, V>, workerid: WorkerId, scheduled: Option<JobId>, fs: FileSystem<V>)
      returns (fut: Option<Future<V>>, fs': FileSystem<V>)
      requires watcher.Valid()
      modifies this, watcher
      ensures watcher.Valid()
      ensures fs' == fs[InFile(workerid) := Input(Single(args, kwargs))]
      ensures old(Valid()) && (scheduled.Some? ==> scheduled.value !in old(jobs) && OutFile(workerid) !in old(watcher.waiting)) ==> Valid()
      ensures scheduled.None? ==> fut.None? && jobs == old(jobs) && unchanged(watcher)
      ensures scheduled.Some? ==>
        && fut.Some? && fresh(fut.value) && fut.value.state.Pending?
        && jobs == old(jobs)[scheduled.value := (fut.value, workerid)]
        && watcher.waiting == old(watcher.waiting)[OutFile(workerid) := scheduled.value]
        && watcher.order == Registered(old(watcher.order), [OutFile(workerid)])
        && watcher.shutdown == old(watcher.shutdown)
    {
      fs' := fs[InFile(workerid) := Input(Single(args, kwargs))];
      if scheduled.None? {
        return None, fs';
      }
      var f := Register(workerid, scheduled.value);
      return Some(f), fs';
    }

    /** Create a pending future, have the watcher wait for the worker's output file, and record the job. */
    method Register(workerid: WorkerId, jobid: JobId) returns (fut: Future<V>)
      requires watcher.Valid()
      modifies this, watcher
      ensures watcher.Valid()
      ensures fresh(fut) && fut.state.Pending?
      ensures old(Valid()) && jobid !in old(jobs) && OutFile(workerid) !in old(watcher.waiting) ==> Valid()
      ensures jobs == old(jobs)[jobid := (fut, workerid)]
      ensures watcher.waiting == old(watcher.waiting)[OutFile(workerid) := jobid]
      ensures watcher.order == Registered(old(watcher.order), [OutFile(workerid)])
      ensures watcher.shutdown == old(watcher.shutdown)
    {
      fut := new Future();
      watcher.Wait(OutFile(workerid), jobid);
      jobs := jobs[jobid := (fut, workerid)];
      if old(Tracked(jobs, watcher.waiting)) && jobid !in old(jobs) && OutFile(workerid) !in old(watcher.waiting) {
        TrackedRegister(old(jobs), old(watcher.waiting), jobid, workerid, fut);
      }
    }

    /**
     * `_completion(jobid)`: take the job out of the table (reporting whether
     * the table became empty), resolve its future from the output file, and
     * remove both communication files. Each way the handler can raise ends it
     * at that point, with what was done so far.
     */
    method Completion(jobid: JobId, fs: FileSystem<V>) returns (outcome: Outcome, notified: bool, fs': FileSystem<V>)
      modifies this, if jobid in jobs then {jobs[jobid].0} else {}
      ensures jobs == old(jobs) - {jobid}
      ensures jobid !in old(jobs) ==> outcome == UnknownJob && !notified && fs' == fs
      ensures jobid in old(jobs) ==>
        var (fut, w) := old(jobs[jobid]);
        var reply := ReplyState(fs, w);
        && (notified <==> jobs == map[])
        && (outcome == OutputMissing <==> OutFile(w) !in fs)
        && (outcome == Undecodable <==> OutFile(w) in fs && reply.None?)
        && (outcome == AlreadyResolved <==> reply.Some? && !old(fut.state).Pending?)
        && (outcome == InputMissing <==> reply.Some? && old(fut.state).Pending? && InFile(w) !in fs)
        && (outcome == Completed <==> reply.Some? && old(fut.state).Pending? && InFile(w) in fs)
        && (fut.state == if reply.Some? && old(fut.state).Pending? then reply.value else old(fut.state))
        && (fs' == if outcome == Completed then fs - {InFile(w), OutFile(w)} else fs)
    {
      fs' := fs;
      if jobid !in jobs {
        return UnknownJob, false, fs';
      }
      var (fut, workerid) := jobs[jobid];
      jobs := jobs - {jobid};
      notified := jobs == map[];
      if OutFile(workerid) !in fs {
        return OutputMissing, notified, fs';
      }
      var reply := Resolution(fs[OutFile(workerid)]);
      if reply.None? {
        return Undecodable, notified, fs';
      }
      var resolved: bool;
      match reply.value {
        case Ok(v) =>
          resolved := fut.SetResult(v);
        case Err(e) =>
          resolved := fut.SetException(e);
      }
      if !resolved {
        return AlreadyResolved, notified, fs';
      }
      if InFile(workerid) !in fs {
        return InputMissing, notified, fs';
      }
      fs' := fs - {InFile(workerid), OutFile(workerid)};
      return Completed, notified, fs';
    }

    /**
     * One pass of the watcher thread's loop with the executor's completion
     * handler as its callback: every watched output file that exists fires,
     * in table order, and the handler runs for its job. The first handler
     * call that raises ends the thread; `failure` is how it ended. A callback
     * completes exactly when `CompletesAt` holds for it, so the pass fails
     * exactly at the first fired job for which it does not, as `FailsAt`
     * describes; the futures of the jobs not handled keep their states.
     */
    method Poll(fs: FileSystem<V>) returns (completed: nat, failure: Option<Outcome>, fs': FileSystem<V>)
      requires watcher.Valid()
      modifies this, watcher, JobFutures(jobs)
      ensures watcher.Valid()
      ensures old(watcher.shutdown) ==>
        && completed == 0 && failure.None? && fs' == fs && jobs == old(jobs)
        && watcher.shutdown && watcher.order == old(watcher.order) && watcher.waiting == old(watcher.waiting)
        && FutureStates(old(jobs)) == old(FutureStates(jobs))
      ensures !old(watcher.shutdown) ==>
        var fired := ValuesAt(old(watcher.waiting), Present(old(watcher.order), fs.Keys));
        var handled := if failure.Some? then completed + 1 else completed;
        && watcher.order == Absent(old(watcher.order), fs.Keys)
        && watcher.waiting == old(watcher.waiting) - fs.Keys
        && watcher.shutdown == failure.Some?
        && (failure.None? ==> completed == |fired|)
        && (failure.Some? ==> completed < |fired| && failure.value != Completed)
        && CompletedUpTo(old(FutureStates(jobs)), old(jobs), fs, fired, completed)
        && (failure.Some? ==> !CompletesAt(old(FutureStates(jobs)), old(jobs), fs, fired, completed))
        && Untouched(old(FutureStates(jobs)), FutureStates(old(jobs)), old(jobs), fired[..handled])
        && HandledUpTo(old(jobs), FutureStates(old(jobs)), fired, fs, completed)
        && (failure.Some? ==>
              FailsAt(old(FutureStates(jobs)), old(jobs), fs, fired, completed, failure.value, FutureStates(old(jobs))))
        && jobs == Deleted(old(jobs), fired[..handled])
        && fs' == Cleaned(fs, old(jobs), fired[..completed])
      ensures old(Valid()) && failure.None? ==> Valid()
    {
      ghost var jobs0, states := jobs, FutureStates(jobs);
      ghost var order0, waiting0 := watcher.order, watcher.waiting;
      completed, failure, fs' := 0, None, fs;
      var step := watcher.PollOnce(fs.Keys);
      assert FutureStates(jobs0) == states;
      if step.Stopped? {
        return;
      }
      completed, failure, fs' := RunCallbacks(step.fired, fs);
      if failure.None? && Tracked(jobs0, waiting0) {
        assert step.fired[..completed] == step.fired;
        TrackedPoll(jobs0, order0, waiting0, fs.Keys);
        assert Tracked(jobs, watcher.waiting);
      }
    }

    /**
     * The callbacks of a pass that was not stopped, and the end of the
     * thread when one of them raises.
     */
    method RunCallbacks(fired: seq<JobId>, fs: FileSystem<V>) returns (completed: nat, failure: Option<Outcome>, fs': FileSystem<V>)
      modifies this, watcher, JobFutures(jobs)
      ensures watcher.order == old(watcher.order) && watcher.waiting == old(watcher.waiting)
      ensures watcher.shutdown == (failure.Some? || old(watcher.shutdown))
      ensures (failure.None? ==> completed == |fired|)
      ensures (failure.Some? ==> completed < |fired| && failure.value != Completed)
      ensures CompletedUpTo(old(FutureStates(jobs)), old(jobs), fs, fired, completed)
      ensures failure.Some? ==> !CompletesAt(old(FutureStates(jobs)), old(jobs), fs, fired, completed)
      ensures Untouched(old(FutureStates(jobs)), FutureStates(old(jobs)), old(jobs),
                        fired[..if failure.Some? then completed + 1 else completed])
      ensures HandledUpTo(old(jobs), FutureStates(old(jobs)), fired, fs, completed)
      ensures failure.Some? ==>
        FailsAt(old(FutureStates(jobs)), old(jobs), fs, fired, completed, failure.value, FutureStates(old(jobs)))
      ensures jobs == Deleted(old(jobs), fired[..if failure.Some? then completed + 1 else completed])
      ensures fs' == Cleaned(fs, old(jobs), fired[..completed])
    {
      ghost var jobs0 := jobs;
      completed, failure, fs' := CompleteAll(fired, fs);
      if failure.Some? {
        ghost var jobs1, now := jobs, FutureStates(jobs0);
        watcher.Stop();
        assert jobs == jobs1 && FutureStates(jobs0) == now;
      }
    }

    /**
     * The callbacks of one poll pass: the completion handler for each fired
     * job id in turn, until one raises. Every callback before the failing one
     * completed because `CompletesAt` held for it, the failing one fails
     * because it did not, and no future but those of the jobs handled changes.
     */
    method CompleteAll(fired: seq<JobId>, fs: FileSystem<V>) returns (completed: nat, failure: Option<Outcome>, fs': FileSystem<V>)
      modifies this, JobFutures(jobs)
      ensures (failure.None? ==> completed == |fired|)
      ensures (failure.Some? ==> completed < |fired| && failure.value != Completed)
      ensures CompletedUpTo(old(FutureStates(jobs)), old(jobs), fs, fired, completed)
      ensures failure.Some? ==> !CompletesAt(old(FutureStates(jobs)), old(jobs), fs, fired, completed)
      ensures Untouched(old(FutureStates(jobs)), FutureStates(old(jobs)), old(jobs),
                        fired[..if failure.Some? then completed + 1 else completed])
      ensures HandledUpTo(old(jobs), FutureStates(old(jobs)), fired, fs, completed)
      ensures failure.Some? ==>
        FailsAt(old(FutureStates(jobs)), old(jobs), fs, fired, completed, failure.value, FutureStates(old(jobs)))
      ensures jobs == Deleted(old(jobs), fired[..if failure.Some? then completed + 1 else completed])
      ensures fs' == Cleaned(fs, old(jobs), fired[..completed])
    {
      ghost var jobs0, states := jobs, FutureStates(jobs);
      completed, failure, fs' := 0, None, fs;
      var n := 0;
      while n == completed < |fired|
        invariant completed <= n <= |fired| && n <= completed + 1 && (n == completed <==> failure.None?)
        invariant failure.Some? ==> failure.value != Completed && !CompletesAt(states, jobs0, fs, fired, completed)
        invariant failure.Some? ==> FailsAt(states, jobs0, fs, fired, completed, failure.value, FutureStates(jobs0))
        invariant CompletedUpTo(states, jobs0, fs, fired, completed)
        invariant Untouched(states, FutureStates(jobs0), jobs0, fired[..n])
        invariant HandledUpTo(jobs0, FutureStates(jobs0), fired, fs, completed)
        invariant jobs == Deleted(jobs0, fired[..n])
        invariant fs' == Cleaned(fs, jobs0, fired[..completed])
        decreases |fired| - n
      {
        var outcome;
        outcome, fs' := CallbackStep(jobs0, states, fired, fs, n, fs');
        if outcome == Completed {
          CompletedStep(states, jobs0, fs, fired, completed);
          completed := completed + 1;
        } else {
          failure := Some(outcome);
        }
        n := n + 1;
      }
    }

    /**
     * One callback of a poll pass: the completion handler for the next fired
     * job id, after the ones before it all completed. `states` holds the
     * futures' states at the start of the pass; the handler completes exactly
     * when `CompletesAt` says so, and touches no future but its own job's.
     */
    method CallbackStep(ghost jobs0: map<JobId, (Future<V>, WorkerId)>, ghost states: map<Future<V>, FutureState<V>>,
                        fired: seq<JobId>, fs: FileSystem<V>, n: nat, fsNow: FileSystem<V>)
      returns (outcome: Outcome, fs': FileSystem<V>)
      requires n < |fired|
      requires jobs == Deleted(jobs0, fired[..n])
      requires fsNow == Cleaned(fs, jobs0, fired[..n])
      requires HandledUpTo(jobs0, FutureStates(jobs0), fired, fs, n)
      requires Untouched(states, FutureStates(jobs0), jobs0, fired[..n])
      modifies this, JobFutures(jobs0)
      ensures jobs == Deleted(jobs0, fired[..n + 1])
      ensures outcome == Completed <==> CompletesAt(states, jobs0, fs, fired, n)
      ensures Untouched(states, FutureStates(jobs0), jobs0, fired[..n + 1])
      ensures outcome == Completed ==>
        fs' == Cleaned(fs, jobs0, fired[..n + 1]) && HandledUpTo(jobs0, FutureStates(jobs0), fired, fs, n + 1)
      ensures outcome != Completed ==> fs' == fsNow && HandledUpTo(jobs0, FutureStates(jobs0), fired, fs, n)
      ensures outcome != Completed ==> FailsAt(states, jobs0, fs, fired, n, outcome, FutureStates(jobs0))
    {
      ghost var before := FutureStates(jobs0);
      var j := fired[n];
      ghost var live := j in jobs0 && j !in fired[..n];
      assert j in jobs <==> live by {
        DeletedMembers(jobs0, fired[..n]);
      }
      assert live ==> jobs[j] == jobs0[j] by {
        DeletedMembers(jobs0, fired[..n]);
      }
      var notified;
      outcome, notified, fs' := Completion(j, fsNow);
      ghost var after := FutureStates(jobs0);
      forall f | f in before && !(live && f == jobs0[j].0)
        ensures f in after && after[f] == before[f]
      {
      }
      DeletedStep(jobs0, fired, n);
      CallbackOutcome(jobs0, states, before, after, fired, fs, n, live, outcome, fs');
    }

    /** `shutdown()`: stop the watcher; the jobs and the watch table stay as they are. */
    method Shutdown()
      modifies watcher
      ensures watcher.shutdown
      ensures watcher.order == old(watcher.order) && watcher.waiting == old(watcher.waiting)
    {
      watcher.Stop();
    }

    /**
     * `submit_array`: check the arguments, write one input file per slot,
     * append the array directive to the caller's list, start the array, and
     * register one pending future per slot. The checks come before any side
     * effect; a scheduler call that raises leaves the inputs and the
     * directive in place but registers nothing.
     */
    method SubmitArray(args: seq<V>, directives: DirectiveList, kwargs: seq<map<string, V>>, batchSize: int,
                       base: WorkerId, group: Option<int>, fs: FileSystem<V>)
      returns (result: Result<seq<Future<V>>>, fs': FileSystem<V>)
      requires watcher.Valid()
      modifies this, watcher, directives
      ensures watcher.Valid()
      ensures SlotCount(|args|, |kwargs|, batchSize).Failure? ==>
        && result == Failure(SlotCount(|args|, |kwargs|, batchSize).error)
        && fs' == fs && unchanged(this, watcher, directives)
      ensures SlotCount(|args|, |kwargs|, batchSize).Success? ==>
        var n := SlotCount(|args|, |kwargs|, batchSize).value;
        && fs' == SlotInputs(fs, base, args, ArrayKwargs(|args|, kwargs), batchSize, n, Slots(n))
        && directives.lines == old(directives.lines) + [ArrayDirective(n)]
        && (group.None? ==> result == Failure(SchedulerFailed) && jobs == old(jobs) && unchanged(watcher))
        && (group.Some? ==>
              && result.Success? && |result.value| == Slots(n)
              && (forall f :: f in result.value ==> fresh(f))
              && (forall f :: f in result.value ==> f.state.Pending?)
              && watcher.shutdown == old(watcher.shutdown)
              && Recorded(old(jobs), old(watcher.order), old(watcher.waiting),
                          SlotWorkerIds(base, Slots(n)), SlotJobIds(group.value, Slots(n)), result.value,
                          jobs, watcher.order, watcher.waiting)
              && (old(Valid()) && Unclaimed(old(jobs), old(watcher.waiting), SlotWorkerIds(base, Slots(n)),
                                            SlotJobIds(group.value, Slots(n)))
                 ==> Valid()))
    {
      var count := SlotCount(|args|, |kwargs|, batchSize);
      if count.Failure? {
        return Failure(count.error), fs;
      }
      var numJobs := count.value;
      var fullKwargs := ArrayKwargs(|args|, kwargs);
      var workerids;
      workerids, fs' := WriteSlotInputs(fs, base, args, fullKwargs, batchSize, numJobs);
      directives.lines := directives.lines + [ArrayDirective(numJobs)];
      if group.None? {
        return Failure(SchedulerFailed), fs';
      }
      var jobids := SlotJobIds(group.value, Slots(numJobs));
      SlotJobIdsDistinct(group.value, Slots(numJobs));
      SlotOutFilesDistinct(base, Slots(numJobs));
      var futs := RegisterSlots(workerids, jobids);
      return Success(futs), fs';
    }

    /**
     * The second loop of `submit_array`: one pending future per slot, in
     * slot order, each recorded under its job id with its worker id and
     * watched through its output file.
     */
    method RegisterSlots(workerids: seq<WorkerId>, jobids: seq<JobId>) returns (futs: seq<Future<V>>)
      requires watcher.Valid() && |workerids| == |jobids|
      modifies this, watcher
      ensures watcher.Valid() && watcher.shutdown == old(watcher.shutdown)
      ensures |futs| == |workerids|
      ensures forall f :: f in futs ==> fresh(f) && f.state.Pending?
      ensures Recorded(old(jobs), old(watcher.order), old(watcher.waiting), workerids, jobids, futs,
                       jobs, watcher.order, watcher.waiting)
      ensures old(Valid()) && NoDup(jobids) && NoDup(OutFiles(workerids))
              && Unclaimed(old(jobs), old(watcher.waiting), workerids, jobids)
              ==> Valid()
    {
      futs := [];
      ghost var jobs0, order0, waiting0 := jobs, watcher.order, watcher.waiting;
      while |futs| < |workerids|
        invariant watcher.Valid() && watcher.shutdown == old(watcher.shutdown)
        invariant RecordedUpTo(jobs0, order0, waiting0, workerids, jobids, futs, jobs, watcher.order, watcher.waiting)
        invariant forall f :: f in futs ==> fresh(f) && f.state.Pending?
        decreases |workerids| - |futs|
      {
        ghost var jobs1, order1, waiting1 := jobs, watcher.order, watcher.waiting;
        var fut := Register(workerids[|futs|], jobids[|futs|]);
        RecordStep(jobs0, order0, waiting0, workerids, jobids, futs, fut, jobs1, order1, waiting1,
                   jobs, watcher.order, watcher.waiting);
        futs := futs + [fut];
      }
      assert workerids[..|futs|] == workerids && jobids[..|futs|] == jobids;
      if Tracked(jobs0, waiting0) && NoDup(jobids) && NoDup(OutFiles(workerids)) && Unclaimed(jobs0, waiting0, workerids, jobids) {
        TrackedRegistered(jobs0, waiting0, workerids, jobids, futs);
      }
    }

    /**
     * The submission loop of `map`: one job per argument, in argument order,
     * all before any result is consumed. The scheduler's answer for each
     * submission is given in `scheduled`; at the first `None` that
     * submission raises (after writing its input file) and the loop ends
     * there, with `complete` false. Every job submitted so far stays recorded.
     */
    method SubmitEach(args: seq<V>, workerids: seq<WorkerId>,
                         scheduled: seq<Option<JobId>>, fs: FileSystem<V>)
      returns (futs: seq<Future<V>>, complete: bool, fs': FileSystem<V>)
      requires watcher.Valid() && |workerids| == |scheduled| == |args|
      modifies this, watcher
      ensures watcher.Valid() && watcher.shutdown == old(watcher.shutdown)
      ensures |futs| == |LeadingIds(scheduled)|
      ensures complete <==> |futs| == |args|
      ensures fs' == InputsWritten(fs, workerids, args, if complete then |futs| else |futs| + 1)
      ensures RecordedUpTo(old(jobs), old(watcher.order), old(watcher.waiting),
                           workerids, LeadingIds(scheduled), futs,
                           jobs, watcher.order, watcher.waiting)
    {
      ghost var jobs0, order0, waiting0 := jobs, watcher.order, watcher.waiting;
      ghost var jobids := LeadingIds(scheduled);
      futs, fs' := [], fs;
      var n := 0;
      while n == |futs| < |args|
        invariant n == |futs| || n == |futs| + 1 == |jobids| + 1
        invariant n <= |args| && fs' == InputsWritten(fs, workerids, args, n)
        invariant watcher.Valid() && watcher.shutdown == old(watcher.shutdown)
        invariant RecordedUpTo(jobs0, order0, waiting0, workerids, jobids, futs, jobs, watcher.order, watcher.waiting)
        decreases |args| - n
      {
        LeadingIdsAt(scheduled, n);
        ghost var jobs1, order1, waiting1 := jobs, watcher.order, watcher.waiting;
        var fut;
        fut, fs' := Submit([args[n]], map[], workerids[n], scheduled[n], fs');
        if fut.Some? {
          RecordStep(jobs0, order0, waiting0, workerids, jobids, futs, fut.value, jobs1, order1, waiting1,
                     jobs, watcher.order, watcher.waiting);
          futs := futs + [fut.value];
        }
        n := n + 1;
      }
      complete := n == |futs|;
    }

  }

  /**
   * The job table and the watch table agree: every watched output file
   * belongs to the worker of the job it names, and every job's output file
   * is watched for that job.
   */
  ghost predicate Tracked<F>(jobs: map<JobId, (F, WorkerId)>, waiting: map<string, JobId>)
  {
    && (forall p :: p in waiting ==> waiting[p] in jobs && OutFile(jobs[waiting[p]].1) == p)
    && (forall j :: j in jobs ==> OutFile(jobs[j].1) in waiting && waiting[OutFile(jobs[j].1)] == j)
  }

  /** Recording a job under a new job id, for a worker whose output file is not yet watched, keeps the tables in agreement. */
  lemma TrackedRegister<F>(jobs: map<JobId, (F, WorkerId)>, waiting: map<string, JobId>, jobid: JobId, w: WorkerId, fut: F)
    requires Tracked(jobs, waiting) && jobid !in jobs && OutFile(w) !in waiting
    ensures Tracked(jobs[jobid := (fut, w)], waiting[OutFile(w) := jobid])
  {
  }

  /** None of the job ids is recorded and none of the workers' output files is watched. */
  ghost predicate Unclaimed<F>(jobs: map<JobId, (F, WorkerId)>, waiting: map<string, JobId>,
                               workerids: seq<WorkerId>, jobids: seq<JobId>)
  {
    && (forall j :: j in jobids ==> j !in jobs)
    && (forall p :: p in OutFiles(workerids) ==> p !in waiting)
  }

  /** So does recording a list of jobs, when their job ids and output files are new and distinct. */
  lemma {:induction false} TrackedRegistered<F>(jobs: map<JobId, (F, WorkerId)>, waiting: map<string, JobId>,
                                                workerids: seq<WorkerId>, jobids: seq<JobId>, futs: seq<F>)
    requires |futs| == |workerids| == |jobids|
    requires Tracked(jobs, waiting) && NoDup(jobids) && NoDup(OutFiles(workerids))
    requires Unclaimed(jobs, waiting, workerids, jobids)
    ensures Tracked(Assigned(jobs, jobids, Entries(futs, workerids)), Assigned(waiting, OutFiles(workerids), jobids))
  {
    if jobids != [] {
      var n := |jobids| - 1;
      var ws, ids, fs := workerids[..n], jobids[..n], futs[..n];
      assert OutFiles(workerids)[..n] == OutFiles(ws);
      assert Entries(futs, workerids)[..n] == Entries(fs, ws);
      assert forall j :: j in ids ==> j in jobids;
      assert forall p :: p in OutFiles(ws) ==> p in OutFiles(workerids);
      TrackedRegistered(jobs, waiting, ws, ids, fs);
      AssignedKeys(jobs, ids, Entries(fs, ws));
      AssignedKeys(waiting, OutFiles(ws), ids);
      assert OutFiles(workerids)[n] == OutFile(workerids[n]);
      TrackedRegister(Assigned(jobs, ids, Entries(fs, ws)), Assigned(waiting, OutFiles(ws), ids), jobids[n], workerids[n], futs[n]);
    }
  }

  /**
   * A poll pass whose callbacks all completed keeps the tables in agreement:
   * the jobs removed are exactly those whose output files were removed from
   * the watch table.
   */
  lemma TrackedPoll<F>(jobs: map<JobId, (F, WorkerId)>, order: seq<string>, waiting: map<string, JobId>, existing: set<string>)
    requires Tracked(jobs, waiting) && forall p :: p in order <==> p in waiting
    ensures Tracked(Deleted(jobs, ValuesAt(waiting, Present(order, existing))), waiting - existing)
  {
    var present := Present(order, existing);
    var fired := ValuesAt(waiting, present);
    PresentMembers(order, existing);
    ValuesAtAll(waiting, present);
    DeletedMembers(jobs, fired);
    var jobs', waiting' := Deleted(jobs, fired), waiting - existing;
    forall p | p in waiting'
      ensures waiting'[p] in jobs' && OutFile(jobs'[waiting'[p]].1) == p
    {
      forall i | 0 <= i < |fired|
        ensures fired[i] != waiting[p]
      {
        assert OutFile(jobs[fired[i]].1) == present[i];
      }
    }
    forall j | j in jobs'
      ensures OutFile(jobs'[j].1) in waiting' && waiting'[OutFile(jobs'[j].1)] == j
    {
      forall i | 0 <= i < |present|
        ensures present[i] != OutFile(jobs[j].1)
      {
        assert fired[i] != j;
      }
    }
  }

  /**
   * While the tables agree, the completion handler for a watched file
   * removes that very file and an input file, never another watched file,
   * so the files a pass sees are the ones the earlier callbacks left.
   */
  lemma HandlerRemovesOwnFile<F>(jobs: map<JobId, (F, WorkerId)>, waiting: map<string, JobId>, p: string)
    requires Tracked(jobs, waiting) && p in waiting
    ensures var w := jobs[waiting[p]].1;
      OutFile(w) == p && forall q :: q in waiting && q != p ==> q != InFile(w) && q != OutFile(w)
  {
    var w := jobs[waiting[p]].1;
    forall q | q in waiting
      ensures q != InFile(w)
    {
      InFileIsNotOutFile(w, jobs[waiting[q]].1);
    }
  }

  /**
   * A single submission end to end: `square(2)` is submitted under job id
   * `000000`, its worker writes the reply 4, and one pass of the watcher
   * resolves the future to 4 and removes both communication files.
   */
  method SubmitSquare() returns (failure: Option<Outcome>, r: FutureState<int>, fs: FileSystem<int>)
    ensures failure.None? && r == Ok(4) && fs == map[]
  {
    var executor := new ClusterExecutor<int>();
    var fut, written := executor.Submit([2], map[], "w", Some("000000"), map[]);
    assert executor.watcher.order == [OutFile("w")];
    failure, fs := PassSquare(executor, fut.value, written[OutFile("w") := Output(Returned(4))]);
    r := fut.value.state;
  }

  /**
   * The same pass when the input file has gone missing: the handler resolves
   * the future to 4 before its unlink raises, so the thread ends with the job
   * popped, the future resolved and the reply still on disk.
   */
  method PassWithoutInput(executor: ClusterExecutor<int>, fut: Future<int>, replied: FileSystem<int>)
    returns (failure: Option<Outcome>, fs: FileSystem<int>)
    requires executor.watcher.Valid() && !executor.watcher.shutdown
    requires executor.jobs == map["000000" := (fut, "w")] && fut.state == Pending
    requires executor.watcher.order == [OutFile("w")] && executor.watcher.waiting == map[OutFile("w") := "000000"]
    requires replied == map[OutFile("w") := Output(Returned(4))]
    modifies executor, executor.watcher, fut
    ensures failure == Some(InputMissing) && fut.state == Ok(4) && fs == replied
    ensures executor.jobs == map[] && executor.watcher.shutdown
  {
    var out := OutFile("w");
    InFileIsNotOutFile("w", "w");
    ghost var jobs := executor.jobs;
    ghost var states := map[fut := Pending];
    assert fut in JobFutures(jobs) by {
      assert jobs["000000"].0 == fut;
    }
    assert JobFutures(jobs) == {fut};
    assert FutureStates(jobs) == states;
    assert replied.Keys == {out};
    assert Present([out], replied.Keys) == [out];
    assert ValuesAt(map[out := "000000"], [out]) == ["000000"];
    assert Cleaned(replied, jobs, []) == replied;
    assert ReplyState(replied, "w") == Some(Ok(4));
    assert FuturesOf(jobs, []) == {};
    assert !CompletesAt(states, jobs, replied, ["000000"], 0);
    var completed;
    completed, failure, fs := executor.Poll(replied);
    assert completed == 0 && failure.Some?;
    assert ["000000"][..completed + 1] == ["000000"];
  }

  /** The watcher pass of `SubmitSquare`, once the worker has written its reply. */
  method PassSquare(executor: ClusterExecutor<int>, fut: Future<int>, replied: FileSystem<int>)
    returns (failure: Option<Outcome>, fs: FileSystem<int>)
    requires executor.watcher.Valid() && !executor.watcher.shutdown
    requires executor.jobs == map["000000" := (fut, "w")] && fut.state == Pending
    requires executor.watcher.order == [OutFile("w")] && executor.watcher.waiting == map[OutFile("w") := "000000"]
    requires replied == map[InFile("w") := Input(Single([2], map[])), OutFile("w") := Output(Returned(4))]
    modifies executor, executor.watcher, fut
    ensures failure.None? && fut.state == Ok(4) && fs == map[]
  {
    var out, inp := OutFile("w"), InFile("w");
    InFileIsNotOutFile("w", "w");
    ghost var jobs := executor.jobs;
    ghost var states := map[fut := Pending];
    assert fut in JobFutures(jobs) by {
      assert jobs["000000"].0 == fut;
    }
    assert JobFutures(jobs) == {fut};
    assert FutureStates(jobs) == states;
    assert replied.Keys == {inp, out};
    assert Present([out], replied.Keys) == [out];
    assert ValuesAt(map[out := "000000"], [out]) == ["000000"];
    assert Cleaned(replied, jobs, []) == replied;
    assert ReplyState(replied, "w") == Some(Ok(4));
    assert FuturesOf(jobs, []) == {};
    assert CompletesAt(states, jobs, replied, ["000000"], 0);
    var completed;
    completed, failure, fs := executor.Poll(replied);
    assert failure.None? && completed == 1;
    assert ["000000"][..completed] == ["000000"];
    assert fs == replied - {inp, out};
  }

  /**
   * The first n fired jobs were in the table, and each one's future holds,
   * in `now`, the state its worker's reply gives.
   */
  ghost predicate HandledUpTo<V>(jobs: map<JobId, (Future<V>, WorkerId)>, now: map<Future<V>, FutureState<V>>,
                                 fired: seq<JobId>, fs: FileSystem<V>, n: nat)
  {
    forall i :: 0 <= i < n && i < |fired| ==>
      && fired[i] in jobs && jobs[fired[i]].0 in now
      && ReplyState(fs, jobs[fired[i]].1) == Some(now[jobs[fired[i]].0])
  }

  /** The states of the table's futures. */
  ghost function FutureStates<V>(jobs: map<JobId, (Future<V>, WorkerId)>): (r: map<Future<V>, FutureState<V>>)
    reads JobFutures(jobs)
    ensures r.Keys == JobFutures(jobs)
  {
    map f | f in JobFutures(jobs) :: f.state
  }

  /** The futures the table holds for the job ids of `ids`. */
  ghost function FuturesOf<V>(jobs: map<JobId, (Future<V>, WorkerId)>, ids: seq<JobId>): set<Future<V>>
  {
    set j | j in jobs && j in ids :: jobs[j].0
  }

  /** Every future of the table that no job of `ids` holds has, in `now`, the state `states` gives it. */
  ghost predicate Untouched<V>(states: map<Future<V>, FutureState<V>>, now: map<Future<V>, FutureState<V>>,
                               jobs: map<JobId, (Future<V>, WorkerId)>, ids: seq<JobId>)
  {
    forall f :: f in JobFutures(jobs) && f !in FuturesOf(jobs, ids) ==> f in states && f in now && now[f] == states[f]
  }

  /**
   * The n-th fired job can be completed, whatever its future: it is still in
   * the table, and in the file system as the earlier callbacks left it its
   * output file holds a reply and its input file is there.
   */
  ghost predicate Ready<V>(jobs: map<JobId, (Future<V>, WorkerId)>, fs: FileSystem<V>, fired: seq<JobId>, n: nat)
    requires n < |fired|
  {
    var j := fired[n];
    var now := Cleaned(fs, jobs, fired[..n]);
    && j in jobs && j !in fired[..n]
    && ReplyState(now, jobs[j].1).Some?
    && InFile(jobs[j].1) in now
  }

  /**
   * The completion handler completes the n-th fired job of a pass that
   * started with the table `jobs`, its futures in `states` and the file
   * system `fs`: the job is ready, and its future was pending when the pass
   * started and is not the future of a job completed before it.
   */
  ghost predicate CompletesAt<V>(states: map<Future<V>, FutureState<V>>, jobs: map<JobId, (Future<V>, WorkerId)>,
                                 fs: FileSystem<V>, fired: seq<JobId>, n: nat)
    requires n < |fired|
  {
    && Ready(jobs, fs, fired, n)
    && jobs[fired[n]].0 !in FuturesOf(jobs, fired[..n])
    && jobs[fired[n]].0 in states && states[jobs[fired[n]].0].Pending?
  }

  /**
   * How the n-th callback of a pass ends when it does not complete, given the
   * future states `states` before the pass, and `now` after the callback. A job
   * that is gone raises `KeyError`. Otherwise the handler raises at the first
   * step that fails, against the files the earlier callbacks left: the output
   * file is missing or holds no reply; the future was already resolved; or the
   * input file is missing, in which case the future already holds the reply.
   * A future the earlier callbacks did not touch keeps its state unless it took
   * the reply.
   */
  ghost predicate FailsAt<V>(states: map<Future<V>, FutureState<V>>, jobs: map<JobId, (Future<V>, WorkerId)>,
                             fs: FileSystem<V>, fired: seq<JobId>, n: nat, outcome: Outcome,
                             now: map<Future<V>, FutureState<V>>)
    requires n < |fired|
  {
    var j := fired[n];
    var files := Cleaned(fs, jobs, fired[..n]);
    if j !in jobs || j in fired[..n] then outcome == UnknownJob
    else
      var (fut, w) := jobs[j];
      var reply := ReplyState(files, w);
      var pending := fut !in FuturesOf(jobs, fired[..n]) && fut in states && states[fut].Pending?;
      && (outcome == OutputMissing <==> OutFile(w) !in files)
      && (outcome == Undecodable <==> OutFile(w) in files && reply.None?)
      && (outcome == AlreadyResolved <==> reply.Some? && !pending)
      && (outcome == InputMissing <==> reply.Some? && pending && InFile(w) !in files)
      && (fut !in FuturesOf(jobs, fired[..n]) ==>
            && fut in states && fut in now
            && now[fut] == if reply.Some? && pending then reply.value else states[fut])
  }

  /** The first n callbacks of the pass each completed because `CompletesAt` held for them. */
  ghost predicate CompletedUpTo<V>(states: map<Future<V>, FutureState<V>>, jobs: map<JobId, (Future<V>, WorkerId)>,
                                   fs: FileSystem<V>, fired: seq<JobId>, n: nat)
  {
    forall i :: 0 <= i < n && i < |fired| ==> CompletesAt(states, jobs, fs, fired, i)
  }

  lemma CompletedStep<V>(states: map<Future<V>, FutureState<V>>, jobs: map<JobId, (Future<V>, WorkerId)>,
                         fs: FileSystem<V>, fired: seq<JobId>, n: nat)
    requires n < |fired| && CompletedUpTo(states, jobs, fs, fired, n) && CompletesAt(states, jobs, fs, fired, n)
    ensures CompletedUpTo(states, jobs, fs, fired, n + 1)
  {
  }

  /**
   * After the first n callbacks completed, the n-th fired job's future is
   * pending exactly when it was at the start of the pass and none of them
   * resolved it.
   */
  lemma PendingAt<V>(jobs: map<JobId, (Future<V>, WorkerId)>, states: map<Future<V>, FutureState<V>>,
                     now: map<Future<V>, FutureState<V>>, fired: seq<JobId>, fs: FileSystem<V>, n: nat)
    requires n < |fired| && fired[n] in jobs && jobs[fired[n]].0 in now
    requires HandledUpTo(jobs, now, fired, fs, n) && Untouched(states, now, jobs, fired[..n])
    ensures var f := jobs[fired[n]].0;
      now[f].Pending? <==> f !in FuturesOf(jobs, fired[..n]) && f in states && states[f].Pending?
  {
    var f := jobs[fired[n]].0;
    if f in FuturesOf(jobs, fired[..n]) {
      var j :| j in jobs && j in fired[..n] && jobs[j].0 == f;
      var i :| 0 <= i < n && fired[..n][i] == j;
      assert fired[i] == j;
    }
  }

  /**
   * What one callback of a pass means for the pass, given what the
   * completion handler did: `before` and `after` are the futures' states
   * around the call, `live` whether its job was still in the table.
   */
  lemma CallbackOutcome<V>(jobs: map<JobId, (Future<V>, WorkerId)>, states: map<Future<V>, FutureState<V>>,
                           before: map<Future<V>, FutureState<V>>, after: map<Future<V>, FutureState<V>>,
                           fired: seq<JobId>, fs: FileSystem<V>, n: nat, live: bool, outcome: Outcome, fs': FileSystem<V>)
    requires n < |fired| && (live <==> fired[n] in jobs && fired[n] !in fired[..n])
    requires before.Keys == JobFutures(jobs) && after.Keys == before.Keys
    requires forall f :: f in before && !(live && f == jobs[fired[n]].0) ==> after[f] == before[f]
    requires HandledUpTo(jobs, before, fired, fs, n) && Untouched(states, before, jobs, fired[..n])
    requires !live ==> outcome == UnknownJob && fs' == Cleaned(fs, jobs, fired[..n])
    requires live ==>
      var (fut, w) := jobs[fired[n]];
      var now := Cleaned(fs, jobs, fired[..n]);
      var reply := ReplyState(now, w);
      && (outcome == OutputMissing <==> OutFile(w) !in now)
      && (outcome == Undecodable <==> OutFile(w) in now && reply.None?)
      && (outcome == AlreadyResolved <==> reply.Some? && !before[fut].Pending?)
      && (outcome == InputMissing <==> reply.Some? && before[fut].Pending? && InFile(w) !in now)
      && (outcome == Completed <==> reply.Some? && before[fut].Pending? && InFile(w) in now)
      && after[fut] == (if reply.Some? && before[fut].Pending? then reply.value else before[fut])
      && fs' == (if outcome == Completed then now - {InFile(w), OutFile(w)} else now)
    ensures outcome == Completed <==> CompletesAt(states, jobs, fs, fired, n)
    ensures Untouched(states, after, jobs, fired[..n + 1])
    ensures outcome == Completed ==> fs' == Cleaned(fs, jobs, fired[..n + 1]) && HandledUpTo(jobs, after, fired, fs, n + 1)
    ensures outcome != Completed ==> fs' == Cleaned(fs, jobs, fired[..n]) && HandledUpTo(jobs, after, fired, fs, n)
    ensures outcome != Completed ==> FailsAt(states, jobs, fs, fired, n, outcome, after)
  {
    FuturesOfStep(jobs, fired, n);
    if live {
      var (fut, w) := jobs[fired[n]];
      PendingAt(jobs, states, before, fired, fs, n);
      if outcome == Completed {
        assert ReplyState(fs, w) == ReplyState(Cleaned(fs, jobs, fired[..n]), w) by {
          CleanedMembers(fs, jobs, fired[..n]);
        }
        CleanedStep(fs, jobs, fired, n);
      }
      CallbackKeeps(jobs, states, before, after, fired, fs, n, outcome == Completed);
    } else {
      StatesKept(jobs, states, before, after, fired, fs, n);
    }
  }

  /**
   * The n-th callback changes at most its own job's future, and only when
   * that future was pending: the other futures keep their states, and so do
   * the futures of the jobs completed before it.
   */
  lemma CallbackKeeps<V>(jobs: map<JobId, (Future<V>, WorkerId)>, states: map<Future<V>, FutureState<V>>,
                         now: map<Future<V>, FutureState<V>>, after: map<Future<V>, FutureState<V>>,
                         fired: seq<JobId>, fs: FileSystem<V>, n: nat, completed: bool)
    requires n < |fired| && fired[n] in jobs && jobs[fired[n]].0 in now && now.Keys == after.Keys
    requires forall f :: f in now && f != jobs[fired[n]].0 ==> after[f] == now[f]
    requires now[jobs[fired[n]].0].Pending? || after[jobs[fired[n]].0] == now[jobs[fired[n]].0]
    requires completed ==> ReplyState(fs, jobs[fired[n]].1) == Some(after[jobs[fired[n]].0])
    requires HandledUpTo(jobs, now, fired, fs, n) && Untouched(states, now, jobs, fired[..n])
    requires FuturesOf(jobs, fired[..n + 1]) == FuturesOf(jobs, fired[..n]) + {jobs[fired[n]].0}
    ensures Untouched(states, after, jobs, fired[..n + 1])
    ensures HandledUpTo(jobs, after, fired, fs, n)
    ensures completed ==> HandledUpTo(jobs, after, fired, fs, n + 1)
  {
    var f := jobs[fired[n]].0;
    forall i | 0 <= i < n
      ensures jobs[fired[i]].0 in after && after[jobs[fired[i]].0] == now[jobs[fired[i]].0]
    {
      assert !now[jobs[fired[i]].0].Pending?;
    }
  }

  /** A callback that finds no job leaves every future's state as it was. */
  lemma StatesKept<V>(jobs: map<JobId, (Future<V>, WorkerId)>, states: map<Future<V>, FutureState<V>>,
                      now: map<Future<V>, FutureState<V>>, after: map<Future<V>, FutureState<V>>,
                      fired: seq<JobId>, fs: FileSystem<V>, n: nat)
    requires n < |fired| && now.Keys == after.Keys
    requires forall f :: f in now ==> after[f] == now[f]
    requires HandledUpTo(jobs, now, fired, fs, n) && Untouched(states, now, jobs, fired[..n])
    requires FuturesOf(jobs, fired[..n]) <= FuturesOf(jobs, fired[..n + 1])
    ensures Untouched(states, after, jobs, fired[..n + 1])
    ensures HandledUpTo(jobs, after, fired, fs, n)
  {
  }

  /** The futures of one more fired job are those of the ones before it and its own. */
  lemma FuturesOfStep<V>(jobs: map<JobId, (Future<V>, WorkerId)>, fired: seq<JobId>, n: nat)
    requires n < |fired|
    ensures FuturesOf(jobs, fired[..n + 1]) == FuturesOf(jobs, fired[..n]) + (if fired[n] in jobs then {jobs[fired[n]].0} else {})
  {
    assert forall j :: j in fired[..n + 1] <==> j in fired[..n] || j == fired[n] by {
      assert fired[..n + 1] == fired[..n] + [fired[n]];
    }
  }

  /** The futures the job table holds: the objects a completion may resolve. */
  ghost function JobFutures<V>(jobs: map<JobId, (Future<V>, WorkerId)>): set<Future<V>>
  {
    set j | j in jobs :: jobs[j].0
  }

  /** The state the reply in a worker's output file gives its future; None when there is no reply to read. */
  function ReplyState<V>(fs: FileSystem<V>, w: WorkerId): (r: Option<FutureState<V>>)
    ensures r.Some? ==> OutFile(w) in fs && !r.value.Pending?
  {
    if OutFile(w) in fs then Resolution(fs[OutFile(w)]) else None
  }

  /** The file system after the completion handler removed both communication files of each job of `ids` in turn. */
  ghost function Cleaned<V>(fs: FileSystem<V>, jobs: map<JobId, (Future<V>, WorkerId)>, ids: seq<JobId>): FileSystem<V>
  {
    if ids == [] then fs
    else
      var before := Cleaned(fs, jobs, ids[..|ids| - 1]);
      var j := ids[|ids| - 1];
      if j in jobs then before - {InFile(jobs[j].1), OutFile(jobs[j].1)} else before
  }

  /** Cleaning up only removes files: what is left holds what it held. */
  lemma {:induction false} CleanedMembers<V>(fs: FileSystem<V>, jobs: map<JobId, (Future<V>, WorkerId)>, ids: seq<JobId>)
    ensures forall p :: p in Cleaned(fs, jobs, ids) ==> p in fs && Cleaned(fs, jobs, ids)[p] == fs[p]
  {
    if ids != [] {
      CleanedMembers(fs, jobs, ids[..|ids| - 1]);
    }
  }

  /** Cleaning up after one more job removes that job's two files from what was left. */
  lemma CleanedStep<V>(fs: FileSystem<V>, jobs: map<JobId, (Future<V>, WorkerId)>, ids: seq<JobId>, n: nat)
    requires n < |ids| && ids[n] in jobs
    ensures Cleaned(fs, jobs, ids[..n + 1]) == Cleaned(fs, jobs, ids[..n]) - {InFile(jobs[ids[n]].1), OutFile(jobs[ids[n]].1)}
  {
    assert ids[..n + 1][..n] == ids[..n];
  }

  /** The file system after `map` wrote the input files of its first n arguments, one after another. */
  ghost function InputsWritten<V>(fs: FileSystem<V>, workerids: seq<WorkerId>, args: seq<V>, n: nat): FileSystem<V>
    requires n <= |workerids| && n <= |args|
  {
    if n == 0 then fs
    else InputsWritten(fs, workerids, args, n - 1)[InFile(workerids[n - 1]) := Input(Single([args[n - 1]], map[]))]
  }

  /** Those are the first n input files, each holding its own argument, written in argument order. */
  lemma {:induction false} InputsWrittenInOrder<V>(fs: FileSystem<V>, workerids: seq<WorkerId>, args: seq<V>, n: nat)
    requires n <= |workerids| == |args|
    ensures InputsWritten(fs, workerids, args, n) == Assigned(fs, InFiles(workerids)[..n], SingleCalls(args)[..n])
  {
    if 0 < n {
      var paths, calls := InFiles(workerids), SingleCalls(args);
      InputsWrittenInOrder(fs, workerids, args, n - 1);
      WrittenStep(fs, paths, calls, n - 1, Assigned(fs, paths[..n - 1], calls[..n - 1]), InputsWritten(fs, workerids, args, n));
    }
  }

  /**
   * The tables after registering `futs`, one per slot from the first, for
   * the given workers and job ids on top of `jobs0`, `order0` and
   * `waiting0`: one entry per future, in order.
   */
  ghost predicate RecordedUpTo<F>(jobs0: map<JobId, (F, WorkerId)>, order0: seq<string>, waiting0: map<string, JobId>,
                                  workerids: seq<WorkerId>, jobids: seq<JobId>, futs: seq<F>,
                                  jobs: map<JobId, (F, WorkerId)>, order: seq<string>, waiting: map<string, JobId>)
  {
    && |futs| <= |workerids| && |futs| <= |jobids|
    && Recorded(jobs0, order0, waiting0, workerids[..|futs|], jobids[..|futs|], futs, jobs, order, waiting)
  }

  /**
   * The tables after registering `futs` for the given workers and job ids on
   * top of `jobs0`, `order0` and `waiting0`: one entry per future, in order.
   */
  ghost predicate Recorded<F>(jobs0: map<JobId, (F, WorkerId)>, order0: seq<string>, waiting0: map<string, JobId>,
                              workerids: seq<WorkerId>, jobids: seq<JobId>, futs: seq<F>,
                              jobs: map<JobId, (F, WorkerId)>, order: seq<string>, waiting: map<string, JobId>)
    requires |futs| == |workerids| == |jobids|
  {
    && jobs == Assigned(jobs0, jobids, Entries(futs, workerids))
    && waiting == Assigned(waiting0, OutFiles(workerids), jobids)
    && order == Registered(order0, OutFiles(workerids))
  }

  /** One registration step extends the job table, the watch table and its order by the next worker. */
  lemma RecordStep<F>(jobs0: map<JobId, (F, WorkerId)>, order0: seq<string>, waiting0: map<string, JobId>,
                      workerids: seq<WorkerId>, jobids: seq<JobId>, futs: seq<F>, fut: F,
                      jobs: map<JobId, (F, WorkerId)>, order: seq<string>, waiting: map<string, JobId>,
                      jobs': map<JobId, (F, WorkerId)>, order': seq<string>, waiting': map<string, JobId>)
    requires |futs| < |workerids| && |futs| < |jobids|
    requires RecordedUpTo(jobs0, order0, waiting0, workerids, jobids, futs, jobs, order, waiting)
    requires jobs' == jobs[jobids[|futs|] := (fut, workerids[|futs|])]
    requires waiting' == waiting[OutFile(workerids[|futs|]) := jobids[|futs|]]
    requires order' == Registered(order, [OutFile(workerids[|futs|])])
    ensures RecordedUpTo(jobs0, order0, waiting0, workerids, jobids, futs + [fut], jobs', order', waiting')
  {
    var i := |futs|;
    assert |futs + [fut]| == i + 1;
    assert jobids[..i + 1] == jobids[..i] + [jobids[i]];
    assert OutFiles(workerids[..i + 1]) == OutFiles(workerids[..i]) + [OutFile(workerids[i])];
    assert Entries(futs + [fut], workerids[..i + 1]) == Entries(futs, workerids[..i]) + [(fut, workerids[i])];
    AssignedSnoc(jobs0, jobids[..i], Entries(futs, workerids[..i]), jobids[i], (fut, workerids[i]));
    AssignedSnoc(waiting0, OutFiles(workerids[..i]), jobids[..i], OutFile(workerids[i]), jobids[i]);
    var added := OutFiles(workerids[..i + 1]);
    assert added[..i] == OutFiles(workerids[..i]);
  }

  /** The job ids the scheduler returned before its first refusal. */
  function LeadingIds(scheduled: seq<Option<JobId>>): (r: seq<JobId>)
    ensures |r| <= |scheduled|
  {
    if scheduled == [] || scheduled[0].None? then []
    else [scheduled[0].value] + LeadingIds(scheduled[1..])
  }

  /** The scheduler accepted the i-th submission exactly when it accepted all before it. */
  lemma {:induction false} LeadingIdsAt(scheduled: seq<Option<JobId>>, i: nat)
    requires i <= |LeadingIds(scheduled)| && i < |scheduled|
    ensures scheduled[i].Some? <==> i < |LeadingIds(scheduled)|
    ensures scheduled[i].Some? ==> LeadingIds(scheduled)[i] == scheduled[i].value
  {
    if 0 < i {
      LeadingIdsAt(scheduled[1..], i - 1);
    }
  }

  /** The input file contents of `executor.submit(func, arg)` for each argument. */
  function SingleCalls<V>(args: seq<V>): (r: seq<Blob<V>>)
    ensures |r| == |args| && forall i :: 0 <= i < |args| ==> r[i] == Input(Single([args[i]], map[]))
  {
    seq(|args|, i requires 0 <= i < |args| => Input(Single([args[i]], map[])))
  }

  /** Writing one more file extends the files written so far by that one. */
  lemma WrittenStep<V>(fs: FileSystem<V>, paths: seq<string>, blobs: seq<Blob<V>>, i: nat,
                       before: FileSystem<V>, after: FileSystem<V>)
    requires i < |paths| == |blobs|
    requires before == Assigned(fs, paths[..i], blobs[..i])
    requires after == before[paths[i] := blobs[i]]
    ensures after == Assigned(fs, paths[..i + 1], blobs[..i + 1])
  {
    assert paths[..i + 1] == paths[..i] + [paths[i]];
    assert blobs[..i + 1] == blobs[..i] + [blobs[i]];
    AssignedSnoc(fs, paths[..i], blobs[..i], paths[i], blobs[i]);
  }
}
