/** When does `Update` return nil?  At least whenever nothing goes wrong. */
module EngineSuccess {
  import opened Common
  import opened Engine
  import opened EngineInvariant
  import opened EngineTermination
  import opened EngineRefinement

  /** No cancellation, and no error but "not found". */
  predicate Smooth(a: Action) {
    match a
    case CancelContext => false
    case GetReturns(_, r) => r.Ok? || r.error == NotFound
    case NormReturns(_, r) => r.Ok?
    case AddReturns(_, r, _) => r.None?
    case Publish(r) => r.None?
    case _ => true
  }

  ghost predicate AllSmooth(acts: seq<Action>) {
    forall i :: 0 <= i < |acts| ==> Smooth(acts[i])
  }

  ghost predicate Untroubled(s: State) {
    && !s.ctxDone && s.sent == [] && !s.producer.AbortJoin?
    && (forall i :: 0 <= i < |s.workers| ==> !s.workers[i].Sending?)
    && (s.producer.Returned? ==> s.producer.err == None)
  }

  lemma StepUntroubled(c: Config, s: State, a: Action)
    requires Inv(c, s) && Untroubled(s) && Enabled(c, s, a) && Smooth(a)
    ensures Untroubled(Next(c, s, a))
  {
    if OfProducer(a) {
      ProducerMoves(c, s, a);
      assert s.errs == [];
    } else if !a.Dispatch? {
      WorkerSteps(c, s, a);
    }
  }

  lemma {:induction false} RunUntroubled(c: Config, s: State, acts: seq<Action>, t: State)
    requires Inv(c, s) && Untroubled(s) && Run(c, s, acts, t) && AllSmooth(acts)
    ensures Inv(c, t) && Untroubled(t)
    decreases |acts|
  {
    if acts == [] {
    } else {
      StepInv(c, s, acts[0]);
      StepUntroubled(c, s, acts[0]);
      assert forall i :: 0 <= i < |acts[1..]| ==> acts[1..][i] == acts[i + 1];
      RunUntroubled(c, Next(c, s, acts[0]), acts[1..], t);
    }
  }

  /**
   * A call that is not cancelled and meets no error but "not found" returns nil,
   * however many ids are missing, however many workers there are and however they
   * are scheduled.
   */
  lemma SmoothRunsReturnNil(c: Config, acts: seq<Action>, t: State)
    requires c.concurrency >= 1 && Run(c, Init(c, false), acts, t) && AllSmooth(acts) && Stuck(c, t)
    ensures t.producer == Returned(None)
  {
    InitInv(c, false);
    RunUntroubled(c, Init(c, false), acts, t);
    SumZero(t.workers, SendingOf);
    TerminationBoundary(c, false, acts, t);
  }

  /** ... and has then added every comic there is. */
  lemma SmoothUpdatesComplete(c: Config, src: Source, acts: seq<Action>, t: State)
    requires Keyed(src) && c.concurrency >= 1
    requires HonestRun(c, src, Init(c, false), acts, t) && AllSmooth(acts) && Stuck(c, t)
    ensures t.producer == Returned(None)
    ensures ViewOf(t.db) == Sequential(src, ViewOf(c.start), c.lastID)
  {
    InitInv(c, false);
    InitSound(c, src, false);
    HonestRunSound(c, src, Init(c, false), acts, t);
    SmoothRunsReturnNil(c, acts, t);
    RunUntroubled(c, Init(c, false), acts, t);
    CleanNil(c, src, t);
  }
}
