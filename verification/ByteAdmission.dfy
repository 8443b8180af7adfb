/**
  Admission control over the bytes in flight, with one waiter slot (packages/hub/src/concurrency.ts).

  `Admission` is the value of the closure's two variables; `AfterAttempt` is one pass of the waiting loop
  of `admit` up to its next suspension, `AfterRelease` is `release`.
 */
module ByteBudget {

  datatype Admission = Admission(inFlight: int, waiting: bool)

  /** A request passes when nothing is in flight, however large it is, or when it fits the budget. */
  predicate Passes(a: Admission, maxBytes: int, bytes: int) {
    a.inFlight <= 0 || a.inFlight + bytes <= maxBytes
  }

  function AfterAttempt(a: Admission, maxBytes: int, bytes: int): Admission {
    if Passes(a, maxBytes, bytes) then a.(inFlight := a.inFlight + bytes) else a.(waiting := true)
  }

  function AfterRelease(a: Admission, bytes: int): Admission {
    Admission(a.inFlight - bytes, false)
  }

  class ByteAdmission {
    const maxBytes: int
    var inFlight: int
    var waiting: bool

    function View(): Admission
      reads this
    {
      Admission(inFlight, waiting)
    }

    constructor (maxBytes: int)
      ensures this.maxBytes == maxBytes && View() == Admission(0, false)
    {
      this.maxBytes := maxBytes;
      inFlight, waiting := 0, false;
    }

    /** One pass of `admit`: acquire the bytes, or register the resume callback and suspend. */
    method Attempt(bytes: int) returns (admitted: bool)
      modifies this
      ensures admitted <==> old(inFlight) <= 0 || old(inFlight) + bytes <= maxBytes
      ensures admitted ==> inFlight == old(inFlight) + bytes && waiting == old(waiting)
      ensures !admitted ==> inFlight == old(inFlight) && waiting
      ensures View() == AfterAttempt(old(View()), maxBytes, bytes)
    {
      if inFlight > 0 && inFlight + bytes > maxBytes {
        waiting := true;
        return false;
      }
      inFlight := inFlight + bytes;
      return true;
    }

    /** Returns the bytes, empties the waiter slot and says whether a waiter was resumed. */
    method Release(bytes: int) returns (resumed: bool)
      modifies this
      ensures resumed <==> old(waiting)
      ensures inFlight == old(inFlight) - bytes && !waiting
      ensures View() == AfterRelease(old(View()), bytes)
    {
      inFlight := inFlight - bytes;
      resumed := waiting;
      waiting := false;
    }
  }
}
