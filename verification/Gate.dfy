/** The status gate in front of `Update` and `Drop`, and the sequential loops of `Update`. */
module Gate {
  import opened Common
  import EngineInvariant

  datatype Status = StatusIdle | StatusRunning

  /** What a caller finds at the gate: the status it leaves and whether it got in. */
  function TryEnter(status: Status): (r: (Status, bool))
    ensures r.0 == StatusRunning && (r.1 <==> status != StatusRunning)
  {
    if status == StatusRunning then (status, false) else (StatusRunning, true)
  }

  /** `inside` counts the callers that have passed the gate and not yet left. */
  class Service {
    const concurrency: nat
    var status: Status
    ghost var inside: nat

    ghost predicate Valid()
      reads this
    {
      inside <= 1 && (status == StatusRunning <==> inside == 1)
    }

    constructor (concurrency: nat)
      requires concurrency >= 1
      ensures Valid() && this.concurrency == concurrency && inside == 0
    {
      this.concurrency := concurrency;
      status := StatusIdle;
      inside := 0;
    }

    /** The checks of `NewService`. */
    static method New(concurrency: int) returns (r: Result<Service>)
      ensures r.Ok? <==> concurrency >= 1
      ensures r.Ok? ==> fresh(r.value) && r.value.Valid() && r.value.concurrency == concurrency && r.value.inside == 0
    {
      if concurrency < 1 {
        return Err(Other(concurrency));
      }
      var s := new Service(concurrency);
      return Ok(s);
    }

    /** Nobody gets in while somebody is inside, and somebody does when nobody is. */
    method SetStatusRunning() returns (entered: bool)
      requires Valid()
      modifies this
      ensures Valid() && (status, entered) == TryEnter(old(status))
      ensures entered <==> old(inside) == 0
      ensures inside == 1
    {
      if status == StatusRunning {
        return false;
      }
      status := StatusRunning;
      inside := inside + 1;
      return true;
    }

    /** Deferred by whoever got in. */
    method SetStatusIdle()
      requires Valid() && inside > 0
      modifies this
      ensures Valid() && status == StatusIdle && inside == old(inside) - 1
    {
      status := StatusIdle;
      inside := inside - 1;
    }

    /** The reported status tells whether a caller is inside. */
    method CurrentStatus() returns (r: Status)
      requires Valid()
      ensures r == StatusRunning <==> inside == 1
      ensures r == StatusIdle <==> inside == 0
    {
      r := status;
    }
  }

  /** The loop that fills the `known` map. */
  method CollectKnown(existing: seq<int>) returns (known: set<int>)
    ensures forall id :: id in known <==> id in existing
  {
    known := {};
    for i := 0 to |existing|
      invariant forall id :: id in known <==> id in existing[..i]
    {
      known := known + {existing[i]};
    }
    assert existing[..|existing|] == existing;
  }

  /** The final loop over the closed errCh. */
  method DrainErrors(errs: seq<Error>) returns (r: Option<Error>)
    ensures r == EngineInvariant.FirstReal(errs)
    ensures r == None ==> forall i :: 0 <= i < |errs| ==> errs[i] == Canceled
    ensures r != None ==> exists i :: 0 <= i < |errs| && errs[i] == r.value != Canceled
                                      && forall j :: 0 <= j < i ==> errs[j] == Canceled
  {
    var i := 0;
    while i < |errs|
      invariant 0 <= i <= |errs|
      invariant forall j :: 0 <= j < i ==> errs[j] == Canceled
      invariant EngineInvariant.FirstReal(errs[i..]) == EngineInvariant.FirstReal(errs)
    {
      assert errs[i..][1..] == errs[i + 1..];
      if errs[i] != Canceled {
        return Some(errs[i]);
      }
      i := i + 1;
    }
    return None;
  }
}
