/**
 * Remote failures and the single-assignment future cell the executor hands out.
 */
module Futures {
  import opened Text

  /** `RemoteException(error)`: a failure raised inside the worker, carried as text. */
  datatype RemoteException = RemoteException(error: string)
  {
    /** `str(exc)`: a newline followed by the stripped error text. */
    function Str(): string
    {
      "\n" + Strip(error)
    }
  }

  /**
   * The text of a remote exception is a newline and then exactly the part of
   * the error between its leading and trailing blanks.
   */
  lemma RemoteExceptionText(e: RemoteException, i: nat, j: nat)
    requires i <= j <= |e.error|
    requires forall k :: 0 <= k < i ==> IsSpace(e.error[k])
    requires forall k :: j <= k < |e.error| ==> IsSpace(e.error[k])
    requires i < j ==> !IsSpace(e.error[i]) && !IsSpace(e.error[j - 1])
    ensures e.Str() == "\n" + e.error[i..j]
  {
    StripIsCore(e.error, i, j);
  }

  /** The three states of a `concurrent.futures.Future` as the executor uses it. */
  datatype FutureState<V> = Pending | Ok(value: V) | Err(exc: RemoteException)

  /** A result cell that is set at most once. */
  class Future<V> {
    var state: FutureState<V>

    constructor ()
      ensures state.Pending?
    {
      state := Pending;
    }

    /** `fut.set_result(v)`; a second resolution is refused (InvalidStateError). */
    method SetResult(v: V) returns (ok: bool)
      modifies this
      ensures ok == old(state).Pending?
      ensures state == if ok then Ok(v) else old(state)
    {
      ok := state.Pending?;
      if ok {
        state := Ok(v);
      }
    }

    /** `fut.set_exception(e)`; a second resolution is refused (InvalidStateError). */
    method SetException(e: RemoteException) returns (ok: bool)
      modifies this
      ensures ok == old(state).Pending?
      ensures state == if ok then Err(e) else old(state)
    {
      ok := state.Pending?;
      if ok {
        state := Err(e);
      }
    }
  }
}
