/**
 * The vocabulary shared by the executor: worker and job identifiers, the names
 * of the communication files derived from them, what those files hold, and the
 * identifiers and directive an array submission derives from a base and an index.
 */
module Artifacts {
  import opened Text

  datatype Option<T> = None | Some(value: T)

  /** The random token naming one unit of work's input/output file pair. */
  type WorkerId = string

  /** A scheduler-assigned job identifier, opaque to the executor. */
  type JobId = string

  /** The input file the worker reads (`INFILE_FMT % workerid`). */
  function InFile(w: WorkerId): string
  {
    "cfut.in." + w + ".pickle"
  }

  /** The output file whose appearance signals completion (`OUTFILE_FMT % workerid`). */
  function OutFile(w: WorkerId): string
  {
    "cfut.out." + w + ".pickle"
  }

  lemma InFileInjective(a: WorkerId, b: WorkerId)
    requires InFile(a) == InFile(b)
    ensures a == b
  {
    var p := InFile(a);
    assert a == p[8..|p| - 7];
    assert b == p[8..|p| - 7];
  }

  lemma OutFileInjective(a: WorkerId, b: WorkerId)
    requires OutFile(a) == OutFile(b)
    ensures a == b
  {
    var p := OutFile(a);
    assert a == p[9..|p| - 7];
    assert b == p[9..|p| - 7];
  }

  /** No input file is ever some worker's output file. */
  lemma InFileIsNotOutFile(a: WorkerId, b: WorkerId)
    ensures InFile(a) != OutFile(b)
  {
    assert InFile(a)[5] == 'i';
    assert OutFile(b)[5] == 'o';
  }

  /** The worker id of array slot i: `workerid_base + '_%d' % i`. */
  function SlotWorkerId(base: WorkerId, i: nat): WorkerId
  {
    base + "_" + NatToString(i)
  }

  /** The job id of array slot i: `'%d_%d' % (group, i)`. */
  function SlotJobId(group: int, i: nat): JobId
  {
    IntToString(group) + "_" + NatToString(i)
  }

  /** The directive announcing an array of `numJobs` slots: `"#SBATCH --array=0-{}".format(numJobs - 1)`. */
  function ArrayDirective(numJobs: int): string
  {
    "#SBATCH --array=0-" + IntToString(numJobs - 1)
  }

  lemma SlotWorkerIdInjective(base: WorkerId, i: nat, j: nat)
    requires SlotWorkerId(base, i) == SlotWorkerId(base, j)
    ensures i == j
  {
    var w := SlotWorkerId(base, i);
    assert NatToString(i) == w[|base| + 1..] == NatToString(j);
    NatToStringInjective(i, j);
  }

  lemma SlotJobIdInjective(group: int, i: nat, j: nat)
    requires SlotJobId(group, i) == SlotJobId(group, j)
    ensures i == j
  {
    var g := IntToString(group);
    var id := SlotJobId(group, i);
    assert NatToString(i) == id[|g| + 1..] == NatToString(j);
    NatToStringInjective(i, j);
  }

  /** What a call payload carries besides the callable itself. */
  datatype Call<V> =
    | Single(args: seq<V>, kwargs: map<string, V>)          // `(fun, args, kwargs)` from submit
    | Batch(batchArgs: seq<V>, batchKwargs: seq<map<string, V>>) // `(fun, arg, kwarg)` for one array slot

  /** What a worker writes back: `(True, value)` or `(False, error text)`. */
  datatype Reply<V> = Returned(value: V) | Raised(error: string)

  /** The decoded content of a communication file. */
  datatype Blob<V> = Input(call: Call<V>) | Output(reply: Reply<V>)

  /** The shared directory: which paths exist, and what each holds. */
  type FileSystem<V> = map<string, Blob<V>>
}
