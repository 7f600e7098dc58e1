/** A call with one worker: ids are handled in order, and after a failure everything else fails too. */
module EngineInOrder {
  import opened Common
  import opened Engine
  import opened EngineInvariant
  import opened EngineRefinement

  /** No error but Canceled has occurred so far. */
  ghost predicate OnlyCanceled(s: State) {
    && (forall i :: 0 <= i < |s.sent| ==> s.sent[i] == Canceled)
    && (forall i :: 0 <= i < |s.workers| && s.workers[i].Sending? ==> s.workers[i].err == Canceled)
  }

  /** The only worker handles the ids in order; after a failure everything else fails too. */
  ghost predicate InOrder(s: State) {
    && |s.workers| == 1
    && (forall id, other :: id in s.place && other in s.place && s.place[id].Held? ==> other <= id)
    && (OnlyCanceled(s) ==>
          && (forall id :: id in s.place && s.place[id].Failed? ==> s.ctxDone)
          && (forall id, later :: id in s.place && later in s.place && s.place[id].Failed? && id < later ==>
                s.place[later].Failed? || (s.place[later].Held? && s.workers[0].Received?)))
  }

  lemma FewerErrorsBefore(c: Config, s: State, t: State, w: nat, p: Place)
    requires |s.workers| == 1 && OnlyCanceled(t)
    requires Advances(s, t, w) || Settles(s, t, w, p) || Delivers(c, s, t, w) || Quits(s, t, w)
    ensures OnlyCanceled(s)
  {
    assert forall i :: 0 <= i < |s.sent| ==> s.sent[i] == t.sent[i];
    if Delivers(c, s, t, w) {
      assert t.sent[|s.sent|] == s.workers[w].err;
    }
  }

  lemma SettleInOrder(c: Config, s: State, t: State, w: nat, p: Place)
    requires Conservation(c, s) && |s.workers| == 1 && InOrder(s) && Settles(s, t, w, p)
    requires t.workers[w].Sending? && t.workers[w].err == Canceled ==> s.ctxDone
    requires s.workers[w].Received? && s.ctxDone ==> p.Failed?
    ensures InOrder(t)
  {
    var id := s.workers[w].id;
    assert s.place[id] == Held(0);
    forall x | x in s.place && s.place[x].Held? ensures x == id {
      assert s.place[x].worker == 0;
    }
    if OnlyCanceled(t) {
      FewerErrorsBefore(c, s, t, w, p);
      assert p.Failed? ==> t.workers[w].err == Canceled;
    }
  }

  lemma FreeInOrder(c: Config, s: State, t: State, w: nat)
    requires Conservation(c, s) && |s.workers| == 1 && InOrder(s)
    requires Delivers(c, s, t, w) || Quits(s, t, w)
    ensures InOrder(t)
  {
    assert !Holding(s.workers[0]);
    assert forall x :: x in s.place ==> !s.place[x].Held?;
    if OnlyCanceled(t) {
      FewerErrorsBefore(c, s, t, w, Stored);
    }
  }

  lemma AdvanceInOrder(c: Config, s: State, t: State, w: nat)
    requires Conservation(c, s) && |s.workers| == 1 && InOrder(s) && Advances(s, t, w)
    requires s.workers[w].Received? ==> !s.ctxDone
    ensures InOrder(t)
  {
    if OnlyCanceled(t) {
      FewerErrorsBefore(c, s, t, w, Stored);
    }
  }

  lemma DispatchInOrder(c: Config, s: State, w: nat, t: State)
    requires Conservation(c, s) && |s.workers| == 1 && InOrder(s)
    requires Enabled(c, s, Dispatch(w)) && t == Next(c, s, Dispatch(w))
    ensures InOrder(t)
  {
    assert !Holding(s.workers[0]);
    assert forall x :: x in s.place ==> !s.place[x].Held? && x < s.next;
    assert t.workers == [Received(s.next)];
    assert t.place == s.place[s.next := Held(0)];
    assert OnlyCanceled(t) ==> OnlyCanceled(s);
  }

  lemma CheckAfterCancel(c: Config, s: State, a: Action)
    requires Enabled(c, s, a) && !OfProducer(a) && !a.Dispatch? && s.workers[a.w].Received?
    ensures if s.ctxDone then Settles(s, Next(c, s, a), a.w, Failed(false)) else Advances(s, Next(c, s, a), a.w)
  {
    CheckMoves(c, s, a.w);
  }

  lemma StepInOrder(c: Config, src: Source, s: State, a: Action)
    requires Inv(c, s) && Sound(c, src, s) && c.concurrency == 1 && InOrder(s)
    requires Enabled(c, s, a) && Honest(c, src, s, a) && Keyed(src)
    ensures InOrder(Next(c, s, a))
  {
    var t := Next(c, s, a);
    if OfProducer(a) {
      ProducerMoves(c, s, a);
      assert OnlyCanceled(t) ==> OnlyCanceled(s);
      assert s.ctxDone ==> t.ctxDone;
    } else if a.Dispatch? {
      DispatchInOrder(c, s, a.w, t);
    } else {
      WorkerSteps(c, s, a);
      MovedWorkerSound(c, src, s, a, t);
      if s.workers[a.w].Received? {
        CheckAfterCancel(c, s, a);
      }
      if Advances(s, t, a.w) {
        AdvanceInOrder(c, s, t, a.w);
      } else if Settles(s, t, a.w, EndOf(a)) {
        SettleInOrder(c, s, t, a.w, EndOf(a));
      } else {
        FreeInOrder(c, s, t, a.w);
      }
    }
  }

  lemma {:induction false} RunInOrder(c: Config, src: Source, s: State, acts: seq<Action>, t: State)
    requires Inv(c, s) && Sound(c, src, s) && c.concurrency == 1 && InOrder(s) && Keyed(src)
    requires HonestRun(c, src, s, acts, t)
    ensures InOrder(t)
    decreases |acts|
  {
    if acts == [] {
    } else {
      StepInv(c, s, acts[0]);
      StepSound(c, src, s, acts[0]);
      StepInOrder(c, src, s, acts[0]);
      RunInOrder(c, src, Next(c, s, acts[0]), acts[1..], t);
    }
  }

  lemma TwoFailures(s: State, id: int, later: int)
    requires id in FailedIds(s) && later in FailedIds(s) && id != later
    ensures |FailedIds(s)| >= 2
  {
    SubsetCardinality({id, later}, FailedIds(s));
  }
}
