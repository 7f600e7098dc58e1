/**
 * When does `Update` return?  errCh has room for `concurrency` errors and is
 * drained only after every worker has exited, so the answer depends on how many
 * ids fail.
 */
module EngineTermination {
  import opened Common
  import opened Engine
  import opened EngineInvariant

  function ProducerWeight(c: Config, s: State): nat {
    match s.producer
    case Feeding => (if s.next <= c.lastID then 6 * (c.lastID + 1 - s.next) else 0) + c.concurrency + 4
    case AbortJoin => c.concurrency + 3
    case Join => c.concurrency + 3
    case Draining => |s.errs| + 2
    case Publishing => 1
    case Returned(_) => 0
  }

  function Measure(c: Config, s: State): nat {
    ProducerWeight(c, s) + Sum(s.workers, WeightOf) + if s.ctxDone then 0 else 1
  }

  lemma WorkerMeasure(c: Config, s: State, t: State, w: nat, p: Place)
    requires Inv(c, s)
    requires Advances(s, t, w) || Settles(s, t, w, p) || Delivers(c, s, t, w) || Quits(s, t, w)
    ensures Measure(c, t) < Measure(c, s)
  {
    SumUpdate(s.workers, w, t.workers[w], WeightOf);
    assert !s.workers[w].Exited?;
    assert !s.errClosed;
  }

  lemma DispatchMeasure(c: Config, s: State, w: nat)
    requires Inv(c, s) && Enabled(c, s, Dispatch(w))
    ensures Measure(c, Next(c, s, Dispatch(w))) < Measure(c, s)
  {
    var t := Next(c, s, Dispatch(w));
    SumUpdate(s.workers, w, t.workers[w], WeightOf);
  }

  lemma ProducerMeasure(c: Config, s: State, a: Action)
    requires Inv(c, s) && Enabled(c, s, a) && OfProducer(a)
    ensures Measure(c, Next(c, s, a)) < Measure(c, s)
  {
  }

  /** Every step, whoever makes it, brings the measure down. */
  lemma StepMeasure(c: Config, s: State, a: Action)
    requires Inv(c, s) && Enabled(c, s, a)
    ensures Measure(c, Next(c, s, a)) < Measure(c, s)
  {
    if OfProducer(a) {
      ProducerMeasure(c, s, a);
    } else if a.Dispatch? {
      DispatchMeasure(c, s, a.w);
    } else {
      WorkerSteps(c, s, a);
      WorkerMeasure(c, s, Next(c, s, a), a.w, EndOf(a));
    }
  }

  lemma {:induction false} RunMeasure(c: Config, s: State, acts: seq<Action>, t: State)
    requires Inv(c, s) && Run(c, s, acts, t)
    ensures |acts| + Measure(c, t) <= Measure(c, s)
    decreases |acts|
  {
    if acts == [] {
    } else {
      StepInv(c, s, acts[0]);
      StepMeasure(c, s, acts[0]);
      RunMeasure(c, Next(c, s, acts[0]), acts[1..], t);
    }
  }

  /** No run goes on forever: the number of steps is bounded before the call. */
  lemma RunsAreFinite(c: Config, ctxDone: bool, acts: seq<Action>, t: State)
    requires c.concurrency >= 1 && Run(c, Init(c, ctxDone), acts, t)
    ensures |acts| <= 6 * (if c.lastID > 0 then c.lastID else 0) + 2 * c.concurrency + 5
  {
    var s := Init(c, ctxDone);
    InitInv(c, ctxDone);
    RunMeasure(c, s, acts, t);
    SumConstant(s.workers, WeightOf, 1);
  }

  /** Up to the capacity of errCh, some goroutine can always move until the call has returned. */
  lemma Progress(c: Config, s: State) returns (a: Action)
    requires Inv(c, s) && |FailedIds(s)| <= c.concurrency && !s.producer.Returned?
    ensures Enabled(c, s, a) && !a.CancelContext?
  {
    if i :| 0 <= i < |s.workers| && Holding(s.workers[i]) {
      match s.workers[i]
      case Received(_) => a := Check(i);
      case Getting(_) => a := GetReturns(i, Err(NotFound));
      case Norming(_, _) => a := NormReturns(i, Ok([]));
      case Adding(_, _, _) => a := AddReturns(i, Some(Other(0)), false);
    } else if i :| 0 <= i < |s.workers| && s.workers[i].Sending? {
      SumZero(s.workers, SendingOf);
      assert SendingOf(s.workers[i]) == 1;
      a := Send(i);
    } else if i :| s.idsClosed && 0 <= i < |s.workers| && s.workers[i].Idle? {
      a := Leave(i);
    } else {
      a := ProducerProgress(c, s);
    }
  }

  lemma ProducerProgress(c: Config, s: State) returns (a: Action)
    requires Inv(c, s) && !s.producer.Returned?
    requires forall i :: 0 <= i < |s.workers| ==> s.workers[i].Exited? || (s.workers[i].Idle? && !s.idsClosed)
    ensures Enabled(c, s, a) && !a.CancelContext?
  {
    match s.producer
    case Feeding =>
      if c.lastID < s.next {
        a := CloseIds;
      } else if s.next in c.start {
        a := Skip;
      } else if s.ctxDone {
        a := Abort;
      } else {
        assert s.workers[0].Idle?;
        a := Dispatch(0);
      }
    case AbortJoin => SumZero(s.workers, LiveOf); a := JoinAbort;
    case Join => SumZero(s.workers, LiveOf); a := JoinAll;
    case Draining => a := Drain;
    case Publishing => a := Publish(Some(c.ctxErr));
  }

  /** One failure too many: a worker sits in its send, so the waitgroup never reaches zero. */
  lemma Overfull(c: Config, s: State)
    requires Inv(c, s) && |FailedIds(s)| > c.concurrency
    ensures !s.producer.Returned? && s.wg > 0
    ensures exists i :: 0 <= i < |s.workers| && s.workers[i].Sending?
  {
    SumZero(s.workers, SendingOf);
    SumZero(s.workers, LiveOf);
    var i :| 0 <= i < |s.workers| && SendingOf(s.workers[i]) != 0;
    assert LiveOf(s.workers[i]) == 1;
  }

  lemma {:induction false} FailuresOnlyGrow(c: Config, s: State, acts: seq<Action>, t: State)
    requires Inv(c, s) && Run(c, s, acts, t)
    ensures FailedIds(s) <= FailedIds(t) && |FailedIds(s)| <= |FailedIds(t)|
  {
    forall id | id in FailedIds(s) ensures id in FailedIds(t) {
      PlacesAreFinal(c, s, acts, t, id);
    }
    SubsetCardinality(FailedIds(s), FailedIds(t));
  }

  /**
   * The exact boundary.  A run that can go no further has returned if and only
   * if at most `concurrency` ids reached a send on errCh.
   */
  lemma TerminationBoundary(c: Config, ctxDone: bool, acts: seq<Action>, t: State)
    requires c.concurrency >= 1 && Run(c, Init(c, ctxDone), acts, t) && Stuck(c, t)
    ensures t.producer.Returned? <==> |FailedIds(t)| <= c.concurrency
  {
    InitInv(c, ctxDone);
    RunInv(c, Init(c, ctxDone), acts, t);
    if |FailedIds(t)| > c.concurrency {
      Overfull(c, t);
    } else if !t.producer.Returned? {
      var a := Progress(c, t);
    }
  }

  /** Past the boundary there is no way back, whatever happens next. */
  lemma OverfullNeverReturns(c: Config, s: State, acts: seq<Action>, t: State)
    requires Inv(c, s) && |FailedIds(s)| > c.concurrency && Run(c, s, acts, t)
    ensures !t.producer.Returned? && t.wg > 0
  {
    RunInv(c, s, acts, t);
    FailuresOnlyGrow(c, s, acts, t);
    Overfull(c, t);
  }

  /** Any state can be run on until nothing moves. */
  lemma {:induction false} RunToTheEnd(c: Config, s: State) returns (acts: seq<Action>, t: State)
    requires Inv(c, s)
    ensures Run(c, s, acts, t) && Stuck(c, t)
    decreases Measure(c, s)
  {
    if Stuck(c, s) {
      acts, t := [], s;
    } else {
      var a :| Enabled(c, s, a) && !a.CancelContext?;
      StepInv(c, s, a);
      StepMeasure(c, s, a);
      var rest;
      rest, t := RunToTheEnd(c, Next(c, s, a));
      acts := [a] + rest;
      assert acts[1..] == rest;
    }
  }

  lemma MissingSomewhere(c: Config, next: int)
    requires |c.MissingFrom(next)| > 0
    ensures next <= c.lastID
  {
    var id :| id in c.MissingFrom(next);
  }

  lemma MissingSplit(c: Config, next: int)
    requires 1 <= next <= c.lastID
    ensures |c.MissingFrom(next)| == |c.MissingFrom(next + 1)| + if next in c.start then 0 else 1
  {
    if next in c.start {
      assert c.MissingFrom(next) == c.MissingFrom(next + 1);
    } else {
      assert c.MissingFrom(next) == c.MissingFrom(next + 1) + {next};
    }
  }

  /** Worker 0 takes every id and every Get fails: the state after id `s.next - 1`. */
  ghost predicate AllFailing(c: Config, s: State) {
    && s.producer.Feeding? && !s.ctxDone
    && |s.workers| > 0 && s.workers[0].Idle? && s.errs == s.sent
    && |FailedIds(s)| == |s.sent|
  }

  /** An idle worker takes the next id and passes its context check. */
  lemma TakeNext(c: Config, s: State, w: nat) returns (acts: seq<Action>, t: State)
    requires s.producer.Feeding? && !s.ctxDone && w < |s.workers| && s.workers[w].Idle?
    requires s.next <= c.lastID && s.next !in c.start
    ensures acts == [Dispatch(w), Check(w)] && Run(c, s, acts, t)
    ensures t == s.(next := s.next + 1, workers := s.workers[w := Getting(s.next)], place := s.place[s.next := Held(w)])
  {
    var a, b := Dispatch(w), Check(w);
    var m := Next(c, s, a);
    assert m.workers == s.workers[w := Received(s.next)];
    t := Next(c, m, b);
    assert t.workers == s.workers[w := Getting(s.next)];
    acts := [a, b];
    assert acts[1..] == [b] && [b][1..] == [];
    assert Run(c, t, [], t);
    assert Run(c, m, [b], t);
  }

  /** Worker 0 takes the next id and its Get fails. */
  lemma FailNext(c: Config, s: State) returns (acts: seq<Action>, t: State)
    requires AllFailing(c, s) && s.next <= c.lastID && s.next !in c.start && s.next !in s.place
    ensures Run(c, s, acts, t)
    ensures t == s.(next := s.next + 1, workers := s.workers[0 := Sending(s.next, Other(0), false)],
                    place := s.place[s.next := Failed(false)])
    ensures |FailedIds(t)| == |FailedIds(s)| + 1
  {
    var p, m := TakeNext(c, s, 0);
    var a := GetReturns(0, Err(Other(0)));
    t := Next(c, m, a);
    assert t.workers == s.workers[0 := Sending(s.next, Other(0), false)];
    assert t.place == s.place[s.next := Failed(false)];
    assert Run(c, t, [], t) && [a][1..] == [];
    assert Run(c, m, [a], t);
    RunConcat(c, s, p, m, [a], t);
    acts := p + [a];
    assert FailedIds(t) == FailedIds(s) + {s.next};
  }

  /** ... and reports the error, which errCh has room for. */
  lemma FailAndSend(c: Config, s: State) returns (acts: seq<Action>, t: State)
    requires AllFailing(c, s) && s.next <= c.lastID && s.next !in c.start && s.next !in s.place
    requires |s.errs| < c.concurrency
    ensures Run(c, s, acts, t) && AllFailing(c, t)
    ensures t.next == s.next + 1 && |t.sent| == |s.sent| + 1
  {
    var p, m := FailNext(c, s);
    t := Next(c, m, Send(0));
    assert Run(c, t, [], t) && [Send(0)][1..] == [];
    assert Run(c, m, [Send(0)], t);
    RunConcat(c, s, p, m, [Send(0)], t);
    acts := p + [Send(0)];
    assert FailedIds(t) == FailedIds(m);
  }

  lemma SkipKnown(c: Config, s: State) returns (acts: seq<Action>, t: State)
    requires AllFailing(c, s) && s.next <= c.lastID && s.next in c.start
    ensures Run(c, s, acts, t) && AllFailing(c, t)
    ensures t.next == s.next + 1 && t.sent == s.sent
  {
    t := Next(c, s, Skip);
    acts := [Skip];
    assert Run(c, t, [], t) && [Skip][1..] == [];
    assert FailedIds(t) == FailedIds(s);
  }

  /** If more ids are left than errCh has room for, they can all fail. */
  lemma {:induction false} FailThemAll(c: Config, s: State) returns (acts: seq<Action>, t: State)
    requires Inv(c, s) && AllFailing(c, s)
    requires |s.sent| + |c.MissingFrom(s.next)| > c.concurrency
    ensures Run(c, s, acts, t) && |FailedIds(t)| > c.concurrency
    decreases c.lastID - s.next
  {
    MissingSomewhere(c, s.next);
    MissingSplit(c, s.next);
    if |s.errs| == c.concurrency && s.next !in c.start {
      acts, t := FailNext(c, s);
    } else {
      var p, m, q;
      if s.next in c.start {
        p, m := SkipKnown(c, s);
      } else {
        p, m := FailAndSend(c, s);
      }
      RunInv(c, s, p, m);
      q, t := FailThemAll(c, m);
      RunConcat(c, s, p, m, q, t);
      acts := p + q;
    }
  }

  /** More missing ids than workers: the call can hang. */
  lemma CanHang(c: Config) returns (acts: seq<Action>, t: State)
    requires c.concurrency >= 1 && |c.MissingFrom(1)| > c.concurrency
    ensures Run(c, Init(c, false), acts, t) && Stuck(c, t) && !t.producer.Returned?
  {
    var s := Init(c, false);
    InitInv(c, false);
    assert FailedIds(s) == {};
    var p, m := FailThemAll(c, s);
    RunInv(c, s, p, m);
    var q;
    q, t := RunToTheEnd(c, m);
    OverfullNeverReturns(c, m, q, t);
    RunConcat(c, s, p, m, q, t);
    acts := p + q;
  }

  /** `Update` is certain to return, whatever fails and whenever it is cancelled. */
  ghost predicate AlwaysReturns(c: Config) {
    forall ctxDone, acts, t ::
      Run(c, Init(c, ctxDone), acts, t) && Stuck(c, t) ==> t.producer.Returned?
  }

  /**
   * A condition that can be checked before the call: returning is certain
   * exactly when no more ids are missing than there are workers.
   */
  lemma AlwaysReturnsIff(c: Config)
    requires c.concurrency >= 1
    ensures AlwaysReturns(c) <==> |c.MissingFrom(1)| <= c.concurrency
  {
    if |c.MissingFrom(1)| > c.concurrency {
      var acts, t := CanHang(c);
    } else {
      forall ctxDone, acts, t | Run(c, Init(c, ctxDone), acts, t) && Stuck(c, t)
        ensures t.producer.Returned?
      {
        IdsBalance(c, ctxDone, acts, t);
        TerminationBoundary(c, ctxDone, acts, t);
      }
    }
  }
}
