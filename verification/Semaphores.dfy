/** bonnie++'s `Semaphore` class over a kernel semaphore set, one method per atomic kernel operation. */
module Semaphores {

  /** `sem_op = -1` with IPC_NOWAIT: refused when the value is already 0. */
  predicate CanDecrement(values: seq<nat>, nr: nat) {
    nr < |values| && values[nr] >= 1
  }

  function Decremented(values: seq<nat>, nr: nat): seq<nat>
    requires CanDecrement(values, nr)
  {
    values[nr := values[nr] - 1]
  }

  /** `sem_op = 0`: waits until the value is 0. */
  predicate IsZero(values: seq<nat>, nr: nat) {
    nr < |values| && values[nr] == 0
  }

  class Semaphore {
    var values: array<nat>
    var semOpen: bool

    constructor (numSems: nat)
      ensures fresh(values) && values.Length == numSems && !semOpen
    {
      values := new nat[numSems](_ => 0);
      semOpen := false;
    }

    /** create: every semaphore of the set gets the given value. */
    method Create(count: nat)
      modifies this`semOpen, values
      ensures semOpen && values == old(values)
      ensures values[..] == seq(values.Length, _ => count)
    {
      for i := 0 to values.Length
        invariant forall k :: 0 <= k < i ==> values[k] == count
      {
        values[i] := count;
      }
      semOpen := true;
    }

    /** The first half of decrement_and_wait; false is the failing `semop`. A set that is not open is left alone. */
    method Decrement(nr: nat) returns (ok: bool)
      modifies values
      ensures ok <==> !semOpen || CanDecrement(old(values[..]), nr)
      ensures values[..] == if semOpen && ok then Decremented(old(values[..]), nr) else old(values[..])
    {
      if !semOpen {
        return true;
      }
      ok := nr < values.Length && values[nr] >= 1;
      if ok {
        values[nr] := values[nr] - 1;
      }
    }
  }
}
