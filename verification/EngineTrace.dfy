/**
 * What can be told about a call from its actions alone: which errors were sent in
 * which order, which workers have stopped, and how many ids have failed.
 */
module EngineTrace {
  import opened Common
  import opened Engine
  import opened EngineInvariant
  import opened EngineTermination

  /** The context is done if it was done at the start or has been cancelled since. */
  predicate DoneBy(ctxDone: bool, acts: seq<Action>) {
    ctxDone || CancelContext in acts
  }

  predicate By(a: Action, w: nat) {
    !OfProducer(a) && a.w == w
  }

  /** The error, if any, that an action makes its worker report. */
  function ErrorOf(c: Config, done: bool, a: Action): Option<Error> {
    match a
    case Check(_) => if done then Some(c.ctxErr) else None
    case GetReturns(_, Err(e)) => if e == NotFound then None else Some(e)
    case NormReturns(_, Err(e)) => Some(e)
    case AddReturns(_, failed, _) => failed
    case _ => None
  }

  /** The error worker `w` has met last. */
  function LastError(c: Config, ctxDone: bool, acts: seq<Action>, w: nat): Option<Error> {
    if acts == [] then None
    else
      var before, a := acts[..|acts| - 1], acts[|acts| - 1];
      var e := ErrorOf(c, DoneBy(ctxDone, before), a);
      if By(a, w) && e.Some? then e else LastError(c, ctxDone, before, w)
  }

  /** The errors put into errCh: at each send, the one its worker has met last. */
  function ErrorLog(c: Config, ctxDone: bool, acts: seq<Action>): seq<Error> {
    if acts == [] then []
    else
      var before, a := acts[..|acts| - 1], acts[|acts| - 1];
      ErrorLog(c, ctxDone, before) +
      if a.Send? then (match LastError(c, ctxDone, before, a.w) case Some(e) => [e] case None => []) else []
  }

  /** Worker `w` has left: it has found idsCh closed, or has checked a context that was done. */
  ghost predicate Stopped(ctxDone: bool, acts: seq<Action>, w: nat) {
    Leave(w) in acts || exists i :: ChecksLate(ctxDone, acts, w, i)
  }

  predicate ChecksLate(ctxDone: bool, acts: seq<Action>, w: nat, i: int) {
    0 <= i < |acts| && acts[i] == Check(w) && DoneBy(ctxDone, acts[..i])
  }

  /** How many calls of Get, Norm and Add have failed. */
  function Faults(c: Config, acts: seq<Action>): nat {
    if acts == [] then 0
    else Faults(c, acts[..|acts| - 1]) + if ErrorOf(c, false, acts[|acts| - 1]).Some? then 1 else 0
  }

  /** How many checks have found the context done. */
  function LateChecks(ctxDone: bool, acts: seq<Action>): nat {
    if acts == [] then 0
    else
      var before, a := acts[..|acts| - 1], acts[|acts| - 1];
      LateChecks(ctxDone, before) + if a.Check? && DoneBy(ctxDone, before) then 1 else 0
  }

  predicate Parting(w: Worker) {
    w.Exited? || (w.Sending? && w.exit)
  }

  function PartingOf(w: Worker): nat { if Parting(w) then 1 else 0 }

  /** What a step does to its worker, as far as errors are concerned. */
  ghost predicate ErrorStep(c: Config, s: State, a: Action, t: State)
    requires !OfProducer(a)
  {
    var e := ErrorOf(c, s.ctxDone, a);
    && a.w < |s.workers| && |t.workers| == |s.workers|
    && t.workers == s.workers[a.w := t.workers[a.w]] && t.ctxDone == s.ctxDone
    && (e.Some? ==> Holding(s.workers[a.w]) && t.workers[a.w] == Sending(s.workers[a.w].id, e.value, a.Check?))
    && (e.None? ==> !t.workers[a.w].Sending?)
    && (Parting(t.workers[a.w]) <==> Parting(s.workers[a.w]) || a.Leave? || (a.Check? && s.ctxDone))
    && (a.Send? ==> s.workers[a.w].Sending?)
    && t.sent == s.sent + if a.Send? then [s.workers[a.w].err] else []
  }

  lemma GetErrors(c: Config, s: State, a: Action)
    requires Enabled(c, s, a) && a.GetReturns?
    ensures ErrorStep(c, s, a, Next(c, s, a))
  {
    var id, t := s.workers[a.w].id, Next(c, s, a);
    if a.got.Ok? {
      assert t.workers[a.w] == Norming(id, a.got.value);
    } else if a.got.error == NotFound {
      assert t.workers[a.w] == Idle;
    } else {
      assert t.workers[a.w] == Sending(id, a.got.error, false);
    }
  }

  lemma NormErrors(c: Config, s: State, a: Action)
    requires Enabled(c, s, a) && a.NormReturns?
    ensures ErrorStep(c, s, a, Next(c, s, a))
  {
  }

  lemma AddErrors(c: Config, s: State, a: Action)
    requires Enabled(c, s, a) && a.AddReturns?
    ensures ErrorStep(c, s, a, Next(c, s, a))
  {
  }

  lemma OtherErrors(c: Config, s: State, a: Action)
    requires Enabled(c, s, a) && (a.Dispatch? || a.Check? || a.Send? || a.Leave?)
    ensures ErrorStep(c, s, a, Next(c, s, a))
  {
  }

  lemma WorkerErrors(c: Config, s: State, a: Action)
    requires Enabled(c, s, a) && !OfProducer(a)
    ensures ErrorStep(c, s, a, Next(c, s, a))
  {
    if a.GetReturns? {
      GetErrors(c, s, a);
    } else if a.NormReturns? {
      NormErrors(c, s, a);
    } else if a.AddReturns? {
      AddErrors(c, s, a);
    } else {
      OtherErrors(c, s, a);
    }
  }

  // ----- The actions tell the state -----

  ghost predicate ErrorsMatch(c: Config, ctxDone: bool, acts: seq<Action>, s: State) {
    && (s.ctxDone <==> DoneBy(ctxDone, acts))
    && s.sent == ErrorLog(c, ctxDone, acts)
    && forall w: nat :: w < |s.workers| && s.workers[w].Sending? ==>
         LastError(c, ctxDone, acts, w) == Some(s.workers[w].err)
  }

  ghost predicate StopsMatch(ctxDone: bool, acts: seq<Action>, s: State) {
    forall w: nat :: w < |s.workers| ==> (Parting(s.workers[w]) <==> Stopped(ctxDone, acts, w))
  }

  ghost predicate CountsMatch(c: Config, ctxDone: bool, acts: seq<Action>, s: State) {
    && |FailedIds(s)| == Faults(c, acts) + LateChecks(ctxDone, acts)
    && LateChecks(ctxDone, acts) <= Sum(s.workers, PartingOf)
  }

  lemma SnocParts(acts: seq<Action>, a: Action)
    ensures (acts + [a])[..|acts|] == acts && (acts + [a])[|acts|] == a
    ensures forall x :: x in acts + [a] <==> x in acts || x == a
  {
  }

  lemma StepErrors(c: Config, ctxDone: bool, acts: seq<Action>, s: State, a: Action)
    requires ErrorsMatch(c, ctxDone, acts, s) && Enabled(c, s, a)
    ensures ErrorsMatch(c, ctxDone, acts + [a], Next(c, s, a))
  {
    var t := Next(c, s, a);
    SnocParts(acts, a);
    if OfProducer(a) {
      ProducerMoves(c, s, a);
    } else {
      WorkerErrors(c, s, a);
    }
  }

  lemma StoppedSnoc(ctxDone: bool, acts: seq<Action>, a: Action, w: nat)
    ensures Stopped(ctxDone, acts + [a], w) <==>
              Stopped(ctxDone, acts, w) || a == Leave(w) || (a == Check(w) && DoneBy(ctxDone, acts))
  {
    SnocParts(acts, a);
    var all := acts + [a];
    forall i | 0 <= i < |acts| ensures ChecksLate(ctxDone, all, w, i) <==> ChecksLate(ctxDone, acts, w, i) {
      assert all[..i] == acts[..i];
    }
    assert ChecksLate(ctxDone, all, w, |acts|) <==> a == Check(w) && DoneBy(ctxDone, acts);
  }

  lemma StepStops(c: Config, ctxDone: bool, acts: seq<Action>, s: State, a: Action)
    requires StopsMatch(ctxDone, acts, s) && (s.ctxDone <==> DoneBy(ctxDone, acts)) && Enabled(c, s, a)
    ensures StopsMatch(ctxDone, acts + [a], Next(c, s, a))
  {
    var t := Next(c, s, a);
    if OfProducer(a) {
      ProducerMoves(c, s, a);
    } else {
      WorkerErrors(c, s, a);
    }
    forall w: nat | w < |t.workers| ensures Parting(t.workers[w]) <==> Stopped(ctxDone, acts + [a], w) {
      StoppedSnoc(ctxDone, acts, a, w);
      assert Parting(s.workers[w]) <==> Stopped(ctxDone, acts, w);
    }
  }

  lemma WorkerFailures(c: Config, s: State, a: Action)
    requires Conservation(c, s) && Enabled(c, s, a) && !OfProducer(a) && !a.Dispatch?
    ensures FailedIds(Next(c, s, a)) ==
            if ErrorOf(c, s.ctxDone, a).Some? then FailedIds(s) + {s.workers[a.w].id} else FailedIds(s)
    ensures ErrorOf(c, s.ctxDone, a).Some? ==> s.workers[a.w].id !in FailedIds(s)
  {
    var t := Next(c, s, a);
    WorkerSteps(c, s, a);
    WorkerErrors(c, s, a);
    if Settles(s, t, a.w, EndOf(a)) {
      assert s.place[s.workers[a.w].id] == Held(a.w);
    }
  }

  /** A step adds a failed id exactly if it gives its worker an error. */
  lemma StepFailures(c: Config, s: State, a: Action)
    requires Inv(c, s) && Enabled(c, s, a)
    ensures |FailedIds(Next(c, s, a))| == |FailedIds(s)| + if ErrorOf(c, s.ctxDone, a).Some? then 1 else 0
  {
    var t := Next(c, s, a);
    if OfProducer(a) {
      ProducerMoves(c, s, a);
      assert FailedIds(t) == FailedIds(s);
    } else if a.Dispatch? {
      assert s.next !in s.place;
      assert FailedIds(t) == FailedIds(s);
    } else {
      WorkerFailures(c, s, a);
    }
  }

  lemma StepCountsMatch(c: Config, ctxDone: bool, acts: seq<Action>, s: State, a: Action)
    requires Inv(c, s) && CountsMatch(c, ctxDone, acts, s) && (s.ctxDone <==> DoneBy(ctxDone, acts)) && Enabled(c, s, a)
    ensures CountsMatch(c, ctxDone, acts + [a], Next(c, s, a))
  {
    var t := Next(c, s, a);
    SnocParts(acts, a);
    StepFailures(c, s, a);
    if OfProducer(a) {
      ProducerMoves(c, s, a);
    } else {
      WorkerErrors(c, s, a);
      SumUpdate(s.workers, a.w, t.workers[a.w], PartingOf);
    }
  }

  /** The actions so far tell all this about the state. */
  ghost predicate Told(c: Config, ctxDone: bool, acts: seq<Action>, s: State) {
    Inv(c, s) && ErrorsMatch(c, ctxDone, acts, s) && StopsMatch(ctxDone, acts, s) && CountsMatch(c, ctxDone, acts, s)
  }

  lemma InitTold(c: Config, ctxDone: bool)
    requires c.concurrency >= 1
    ensures Told(c, ctxDone, [], Init(c, ctxDone))
  {
    InitInv(c, ctxDone);
    assert FailedIds(Init(c, ctxDone)) == {};
  }

  lemma StepTold(c: Config, ctxDone: bool, acts: seq<Action>, s: State, a: Action)
    requires Told(c, ctxDone, acts, s) && Enabled(c, s, a)
    ensures Told(c, ctxDone, acts + [a], Next(c, s, a))
  {
    StepInv(c, s, a);
    StepErrors(c, ctxDone, acts, s, a);
    StepStops(c, ctxDone, acts, s, a);
    StepCountsMatch(c, ctxDone, acts, s, a);
  }

  lemma {:induction false} ActionsTell(c: Config, ctxDone: bool, acts: seq<Action>, s: State)
    requires c.concurrency >= 1 && Run(c, Init(c, ctxDone), acts, s)
    ensures Told(c, ctxDone, acts, s)
  {
    if acts == [] {
      InitTold(c, ctxDone);
    } else {
      var n := |acts| - 1;
      var m := RunLast(c, Init(c, ctxDone), acts, s);
      ActionsTell(c, ctxDone, acts[..n], m);
      StepTold(c, ctxDone, acts[..n], m, acts[n]);
      assert acts[..n] + [acts[n]] == acts;
    }
  }

  // ----- What this means for a call -----

  /**
   * errCh receives, in the order of the sends, the error each sending worker has
   * met last: the context's own at a late check, or what Get, Norm or Add returned.
   */
  lemma SentIsErrorLog(c: Config, ctxDone: bool, acts: seq<Action>, s: State)
    requires c.concurrency >= 1 && Run(c, Init(c, ctxDone), acts, s)
    ensures s.sent == ErrorLog(c, ctxDone, acts)
    ensures forall w: nat :: w < |s.workers| && s.workers[w].Sending? ==>
              LastError(c, ctxDone, acts, w) == Some(s.workers[w].err)
  {
    ActionsTell(c, ctxDone, acts, s);
  }

  /** A worker leaves for two reasons only, and for these it always does. */
  lemma StopsForTwoReasons(c: Config, ctxDone: bool, acts: seq<Action>, s: State, w: nat)
    requires c.concurrency >= 1 && Run(c, Init(c, ctxDone), acts, s) && w < |s.workers|
    ensures Parting(s.workers[w]) <==> Stopped(ctxDone, acts, w)
  {
    ActionsTell(c, ctxDone, acts, s);
  }

  lemma {:induction false} PartingStays(c: Config, s: State, acts: seq<Action>, t: State, w: nat)
    requires w < |s.workers| && Parting(s.workers[w]) && Run(c, s, acts, t)
    ensures Dispatch(w) !in acts
    decreases |acts|
  {
    if acts == [] {
    } else {
      if OfProducer(acts[0]) {
        ProducerMoves(c, s, acts[0]);
      } else {
        WorkerErrors(c, s, acts[0]);
      }
      PartingStays(c, Next(c, s, acts[0]), acts[1..], t, w);
    }
  }

  /** A worker that has found the context done takes no further id. */
  lemma NoWorkAfterLateCheck(c: Config, s: State, w: nat, acts: seq<Action>, t: State)
    requires s.ctxDone && Enabled(c, s, Check(w)) && Run(c, Next(c, s, Check(w)), acts, t)
    ensures Dispatch(w) !in acts
  {
    WorkerErrors(c, s, Check(w));
    PartingStays(c, Next(c, s, Check(w)), acts, t, w);
  }

  lemma {:induction false} SumOfParting(ws: seq<Worker>)
    ensures Sum(ws, PartingOf) <= |ws|
  {
    if ws == [] {
    } else {
      SumOfParting(ws[..|ws| - 1]);
    }
  }

  /** Each failed call and each late check costs one id, and a call has at most one late check per worker. */
  lemma FailuresCounted(c: Config, ctxDone: bool, acts: seq<Action>, s: State)
    requires c.concurrency >= 1 && Run(c, Init(c, ctxDone), acts, s)
    ensures |FailedIds(s)| == Faults(c, acts) + LateChecks(ctxDone, acts)
    ensures LateChecks(ctxDone, acts) <= c.concurrency
  {
    ActionsTell(c, ctxDone, acts, s);
    SumOfParting(s.workers);
  }

  /**
   * The boundary, read off the actions: a run that can go no further has returned
   * if and only if failed calls and late checks together are no more than workers.
   */
  lemma BoundaryOfActions(c: Config, ctxDone: bool, acts: seq<Action>, t: State)
    requires c.concurrency >= 1 && Run(c, Init(c, ctxDone), acts, t) && Stuck(c, t)
    ensures t.producer.Returned? <==> Faults(c, acts) + LateChecks(ctxDone, acts) <= c.concurrency
  {
    FailuresCounted(c, ctxDone, acts, t);
    TerminationBoundary(c, ctxDone, acts, t);
  }

  /** Get, Norm and Add have never failed. */
  ghost predicate Faultless(c: Config, acts: seq<Action>) {
    forall i :: 0 <= i < |acts| ==> ErrorOf(c, false, acts[i]) == None
  }

  /** Cancellation alone never hangs a call: if no collaborator fails, it returns, whenever it is cancelled. */
  lemma CancelledCallsReturn(c: Config, ctxDone: bool, acts: seq<Action>, t: State)
    requires c.concurrency >= 1 && Run(c, Init(c, ctxDone), acts, t)
    requires Faultless(c, acts)
    ensures |FailedIds(t)| <= c.concurrency
    ensures Stuck(c, t) ==> t.producer.Returned?
  {
    NoFaults(c, acts);
    FailuresCounted(c, ctxDone, acts, t);
    if Stuck(c, t) {
      TerminationBoundary(c, ctxDone, acts, t);
    }
  }

  lemma {:induction false} NoFaults(c: Config, acts: seq<Action>)
    requires Faultless(c, acts)
    ensures Faults(c, acts) == 0
  {
    if acts == [] {
    } else {
      NoFaults(c, acts[..|acts| - 1]);
    }
  }
}
