/** Runs of a call in which nothing goes wrong, built step by step. */
module EngineDrive {
  import opened Common
  import opened Engine
  import opened EngineInvariant
  import opened EngineTermination
  import opened EngineRefinement

  lemma OneStep(c: Config, src: Source, s: State, a: Action)
    requires Enabled(c, s, a) && Honest(c, src, s, a)
    ensures HonestRun(c, src, s, [a], Next(c, s, a))
  {
    assert [a][1..] == [];
    assert HonestRun(c, src, Next(c, s, a), [], Next(c, s, a));
  }

  lemma {:induction false} ListOf(words: set<string>) returns (r: seq<string>)
    ensures NoDup(r) && ToSet(r) == words
    decreases |words|
  {
    if words == {} {
      r := [];
    } else {
      var w :| w in words;
      var front := ListOf(words - {w});
      assert w !in ToSet(front);
      r := front + [w];
      assert ToSet(r) == ToSet(front) + {w};
    }
  }

  /** A worker takes the next id and is inside Get. */
  lemma Take1(c: Config, src: Source, s: State, w: nat) returns (acts: seq<Action>, t: State)
    requires s.producer.Feeding? && !s.ctxDone && w < |s.workers| && s.workers[w].Idle?
    requires s.next <= c.lastID && s.next !in c.start
    ensures HonestRun(c, src, s, acts, t)
    ensures t == s.(next := s.next + 1, workers := s.workers[w := Getting(s.next)], place := s.place[s.next := Held(w)])
  {
    acts, t := TakeNext(c, s, w);
    OneStep(c, src, s, Dispatch(w));
    OneStep(c, src, Next(c, s, Dispatch(w)), Check(w));
    HonestRunConcat(c, src, s, [Dispatch(w)], Next(c, s, Dispatch(w)), [Check(w)], t);
    assert acts == [Dispatch(w)] + [Check(w)];
  }

  /** A worker that got a comic stores it when nothing goes wrong. */
  lemma StoreOne(c: Config, src: Source, s: State, w: nat) returns (acts: seq<Action>, t: State)
    requires Keyed(src) && w < |s.workers| && s.workers[w].Norming? && s.workers[w].id !in s.db
    requires s.workers[w].info.id == s.workers[w].id
    ensures HonestRun(c, src, s, acts, t)
    ensures t == s.(workers := s.workers[w := Idle], place := t.place, db := t.db)
  {
    var words := ListOf(src.norm(s.workers[w].info.description));
    var a, b := NormReturns(w, Ok(words)), AddReturns(w, None, true);
    var m := Next(c, s, a);
    assert m == s.(workers := s.workers[w := Adding(s.workers[w].id, s.workers[w].info, words)]);
    t := Next(c, m, b);
    assert t.workers == s.workers[w := Idle];
    OneStep(c, src, s, a);
    OneStep(c, src, m, b);
    HonestRunConcat(c, src, s, [a], m, [b], t);
    acts := [a] + [b];
  }

  /** What a worker makes of an id it is getting, when nothing goes wrong. */
  lemma FinishOne(c: Config, src: Source, s: State, w: nat) returns (acts: seq<Action>, t: State)
    requires Keyed(src) && w < |s.workers| && s.workers[w].Getting? && s.workers[w].id !in s.db
    ensures HonestRun(c, src, s, acts, t)
    ensures t == s.(workers := s.workers[w := Idle], place := t.place, db := t.db)
  {
    var id := s.workers[w].id;
    if src.find(id).None? {
      var a := GetReturns(w, Err(NotFound));
      acts, t := [a], Next(c, s, a);
      OneStep(c, src, s, a);
    } else {
      var info := src.find(id).value;
      var a := GetReturns(w, Ok(info));
      var m := Next(c, s, a);
      assert m == s.(workers := s.workers[w := Norming(id, info)]);
      OneStep(c, src, s, a);
      var q;
      q, t := StoreOne(c, src, m, w);
      HonestRunConcat(c, src, s, [a], m, q, t);
      acts := [a] + q;
    }
  }

  /** The call is in its loop, and its context is not done. */
  ghost predicate Undisturbed(c: Config, src: Source, s: State) {
    && Keyed(src) && Inv(c, s) && Sound(c, src, s)
    && s.producer.Feeding? && !s.ctxDone
  }

  /** The producer passes one id; if it is missing, worker `w` brings it to a good end. */
  lemma PassOne(c: Config, src: Source, s: State, w: nat) returns (acts: seq<Action>, t: State)
    requires Undisturbed(c, src, s) && s.next <= c.lastID && w < |s.workers|
    requires c.Missing(s.next) ==> s.workers[w].Idle?
    ensures HonestRun(c, src, s, acts, t) && Undisturbed(c, src, t)
    ensures t.workers == s.workers && t.next == s.next + 1 && t.errs == s.errs
  {
    if s.next in c.start {
      acts, t := [Skip], Next(c, s, Skip);
      OneStep(c, src, s, Skip);
    } else {
      var p, m := Take1(c, src, s, w);
      assert s.next !in s.place;
      var q;
      q, t := FinishOne(c, src, m, w);
      assert t.workers == s.workers;
      HonestRunConcat(c, src, s, p, m, q, t);
      acts := p + q;
    }
    HonestRunSound(c, src, s, acts, t);
  }

  lemma {:induction false} PassUntil(c: Config, src: Source, s: State, w: nat, stop: int)
    returns (acts: seq<Action>, t: State)
    requires Undisturbed(c, src, s) && s.next <= stop <= c.lastID + 1 && w < |s.workers|
    requires s.workers[w].Idle? || forall id :: s.next <= id < stop ==> !c.Missing(id)
    ensures HonestRun(c, src, s, acts, t) && Undisturbed(c, src, t)
    ensures t.workers == s.workers && t.next == stop && t.errs == s.errs
    decreases stop - s.next
  {
    if s.next == stop {
      acts, t := [], s;
    } else {
      var p, m := PassOne(c, src, s, w);
      var q;
      q, t := PassUntil(c, src, m, w, stop);
      HonestRunConcat(c, src, s, p, m, q, t);
      acts := p + q;
    }
  }

  /** Idle workers find idsCh closed, one after the other. */
  lemma {:induction false} LeaveAll(c: Config, src: Source, s: State) returns (acts: seq<Action>, t: State)
    requires Inv(c, s) && s.producer.Join?
    requires forall i :: 0 <= i < |s.workers| ==> s.workers[i].Idle? || s.workers[i].Exited?
    ensures HonestRun(c, src, s, acts, t) && t == s.(workers := t.workers, wg := 0)
    decreases s.wg
  {
    SumZero(s.workers, LiveOf);
    if s.wg == 0 {
      acts, t := [], s;
    } else {
      var i: nat :| i < |s.workers| && LiveOf(s.workers[i]) != 0;
      var m := Next(c, s, Leave(i));
      StepInv(c, s, Leave(i));
      OneStep(c, src, s, Leave(i));
      var q;
      q, t := LeaveAll(c, src, m);
      HonestRunConcat(c, src, s, [Leave(i)], m, q, t);
      acts := [Leave(i)] + q;
    }
  }

  /** All ids are out, all workers idle and errCh empty: the call closes up and returns nil. */
  lemma CloseCleanly(c: Config, src: Source, s: State) returns (acts: seq<Action>, t: State)
    requires Undisturbed(c, src, s) && s.next > c.lastID && s.errs == []
    requires forall i :: 0 <= i < |s.workers| ==> s.workers[i].Idle?
    ensures HonestRun(c, src, s, acts, t) && t.producer == Returned(None) && t.db == s.db && t.sent == s.sent
  {
    var m := Next(c, s, CloseIds);
    OneStep(c, src, s, CloseIds);
    StepInv(c, s, CloseIds);
    var p, n := LeaveAll(c, src, m);
    var q;
    q, t := DrainNothing(c, src, n);
    HonestRunConcat(c, src, m, p, n, q, t);
    HonestRunConcat(c, src, s, [CloseIds], m, p + q, t);
    acts := [CloseIds] + (p + q);
  }

  lemma DrainNothing(c: Config, src: Source, s: State) returns (acts: seq<Action>, t: State)
    requires s.producer.Join? && s.wg == 0 && s.errs == [] && !s.ctxDone
    ensures HonestRun(c, src, s, acts, t) && t.producer == Returned(None) && t.db == s.db && t.sent == s.sent
  {
    var s1 := Next(c, s, JoinAll);
    var s2 := Next(c, s1, Drain);
    OneStep(c, src, s, JoinAll);
    OneStep(c, src, s1, Drain);
    HonestRunConcat(c, src, s, [JoinAll], s1, [Drain], s2);
    acts, t := [JoinAll] + [Drain], s2;
    if !c.publisher.NoPublisher? {
      t := Next(c, s2, Publish(None));
      OneStep(c, src, s2, Publish(None));
      HonestRunConcat(c, src, s, acts, s2, [Publish(None)], t);
      acts := acts + [Publish(None)];
    }
  }

  /** Success is possible: whatever the site, the table and the publisher, some run finishes the job. */
  lemma CanSucceed(c: Config, src: Source) returns (acts: seq<Action>, t: State)
    requires Keyed(src) && c.concurrency >= 1
    ensures HonestRun(c, src, Init(c, false), acts, t) && t.producer == Returned(None)
    ensures ViewOf(t.db) == Sequential(src, ViewOf(c.start), c.lastID)
  {
    var s := Init(c, false);
    InitInv(c, false);
    InitSound(c, src, false);
    var p, m := [], s;
    if c.lastID > 0 {
      p, m := PassUntil(c, src, s, 0, c.lastID + 1);
    }
    var q;
    q, t := CloseCleanly(c, src, m);
    HonestRunSound(c, src, m, q, t);
    HonestRunConcat(c, src, s, p, m, q, t);
    acts := p + q;
    CleanNil(c, src, t);
  }

  // ----- An error that says nothing about the table -----

  /** The insertion goes through and its reply is an error, which the worker reports. */
  lemma StoreAndFail(c: Config, src: Source, s: State, w: nat, e: Error) returns (acts: seq<Action>, t: State)
    requires Keyed(src) && w < |s.workers| && s.workers[w].Norming? && s.workers[w].id !in s.db
    requires s.workers[w].info.id == s.workers[w].id && e != Canceled && |s.errs| < c.concurrency
    ensures HonestRun(c, src, s, acts, t)
    ensures t == s.(workers := s.workers[w := Idle], place := s.place[s.workers[w].id := Failed(true)], db := t.db,
                    errs := s.errs + [e], sent := s.sent + [e])
  {
    var id, info := s.workers[w].id, s.workers[w].info;
    var words := ListOf(src.norm(info.description));
    var a, b := NormReturns(w, Ok(words)), AddReturns(w, Some(e), true);
    var s1 := Next(c, s, a);
    assert s1 == s.(workers := s.workers[w := Adding(id, info, words)]);
    var s2 := Next(c, s1, b);
    assert s2.workers == s.workers[w := Sending(id, e, false)];
    t := Next(c, s2, Send(w));
    assert t.workers == s.workers[w := Idle];
    OneStep(c, src, s, a);
    OneStep(c, src, s1, b);
    OneStep(c, src, s2, Send(w));
    HonestRunConcat(c, src, s1, [b], s2, [Send(w)], t);
    HonestRunConcat(c, src, s, [a], s1, [b] + [Send(w)], t);
    acts := [a] + ([b] + [Send(w)]);
  }

  /** Worker 0 takes the next id and gets its comic. */
  lemma GetNext(c: Config, src: Source, s: State) returns (acts: seq<Action>, t: State)
    requires s.producer.Feeding? && !s.ctxDone && |s.workers| > 0 && s.workers[0].Idle?
    requires s.next <= c.lastID && s.next !in c.start && src.find(s.next).Some?
    ensures HonestRun(c, src, s, acts, t)
    ensures t == s.(next := s.next + 1, workers := s.workers[0 := Norming(s.next, src.find(s.next).value)],
                    place := s.place[s.next := Held(0)])
  {
    var p, m := Take1(c, src, s, 0);
    var a := GetReturns(0, Ok(src.find(s.next).value));
    t := Next(c, m, a);
    assert t.workers == s.workers[0 := Norming(s.next, src.find(s.next).value)];
    OneStep(c, src, m, a);
    HonestRunConcat(c, src, s, p, m, [a], t);
    acts := p + [a];
  }

  /** Worker 0 takes the next id, whose comic gets into the table with an error for a reply. */
  lemma LoseReply(c: Config, src: Source, s: State, e: Error) returns (acts: seq<Action>, t: State)
    requires Undisturbed(c, src, s) && s.next <= c.lastID && c.Missing(s.next) && src.find(s.next).Some?
    requires s.workers[0].Idle? && s.errs == [] && e != Canceled
    ensures HonestRun(c, src, s, acts, t) && Undisturbed(c, src, t)
    ensures t.workers == s.workers && t.next == s.next + 1 && t.errs == [e]
    ensures s.next in t.place && t.place[s.next] == Failed(true)
  {
    var p, m := GetNext(c, src, s);
    assert s.next !in s.place && s.next !in s.db;
    var q;
    q, t := StoreAndFail(c, src, m, 0, e);
    assert t.workers == s.workers;
    HonestRunConcat(c, src, s, p, m, q, t);
    acts := p + q;
    HonestRunSound(c, src, s, acts, t);
  }

  /** The end of a call with one real error in errCh. */
  lemma CloseWithError(c: Config, src: Source, s: State, e: Error) returns (acts: seq<Action>, t: State)
    requires Undisturbed(c, src, s) && s.next > c.lastID && s.errs == [e] && e != Canceled
    requires forall i :: 0 <= i < |s.workers| ==> s.workers[i].Idle?
    ensures HonestRun(c, src, s, acts, t) && t.producer == Returned(Some(e)) && t.sent == [e]
  {
    var m := Next(c, s, CloseIds);
    OneStep(c, src, s, CloseIds);
    StepInv(c, s, CloseIds);
    var p, n := LeaveAll(c, src, m);
    var n1 := Next(c, n, JoinAll);
    t := Next(c, n1, Drain);
    OneStep(c, src, n, JoinAll);
    OneStep(c, src, n1, Drain);
    HonestRunConcat(c, src, n, [JoinAll], n1, [Drain], t);
    HonestRunConcat(c, src, m, p, n, [JoinAll] + [Drain], t);
    HonestRunConcat(c, src, s, [CloseIds], m, p + ([JoinAll] + [Drain]), t);
    acts := [CloseIds] + (p + ([JoinAll] + [Drain]));
  }

  lemma OnlyFailedOne(c: Config, src: Source, t: State, id: int)
    requires Inv(c, t) && Sound(c, src, t) && t.producer.Returned? && c.lastID < t.next && |t.sent| == 1
    requires id in t.place && t.place[id] == Failed(true)
    ensures ViewOf(t.db) == Sequential(src, ViewOf(c.start), c.lastID)
  {
    SumZero(t.workers, SendingOf);
    forall x | c.Missing(x) && src.find(x).Some? ensures x in t.db {
      assert x in t.place && !t.place[x].Held?;
      if x in FailedIds(t) && x != id {
        SubsetCardinality({x, id}, FailedIds(t));
      }
    }
    NothingMissing(c, src, t);
  }

  /** The whole loop, with the reply for `id` lost and everything else in order. */
  lemma OneReplyLost(c: Config, src: Source, id: int, e: Error) returns (acts: seq<Action>, t: State)
    requires Keyed(src) && c.concurrency >= 1 && c.Missing(id) && src.find(id).Some? && e != Canceled
    ensures HonestRun(c, src, Init(c, false), acts, t) && Undisturbed(c, src, t)
    ensures t.workers == Init(c, false).workers && t.next == c.lastID + 1 && t.errs == [e]
    ensures id in t.place && t.place[id] == Failed(true)
  {
    var s := Init(c, false);
    InitInv(c, false);
    InitSound(c, src, false);
    var p1, s1 := PassUntil(c, src, s, 0, id);
    var p2, s2 := LoseReply(c, src, s1, e);
    var p3;
    p3, t := PassUntil(c, src, s2, 0, c.lastID + 1);
    HonestRunSound(c, src, s2, p3, t);
    PlacesAreFinal(c, s2, p3, t, id);
    HonestRunConcat(c, src, s1, p2, s2, p3, t);
    HonestRunConcat(c, src, s, p1, s1, p2 + p3, t);
    acts := p1 + (p2 + p3);
  }

  /**
   * An error is no sign of a gap: `Update` can return any error but Canceled over a
   * table that is complete, because the insertion it belongs to went through.
   */
  lemma ErrorYetComplete(c: Config, src: Source, id: int, e: Error) returns (acts: seq<Action>, t: State)
    requires Keyed(src) && c.concurrency >= 1 && c.Missing(id) && src.find(id).Some? && e != Canceled
    ensures HonestRun(c, src, Init(c, false), acts, t) && t.producer == Returned(Some(e))
    ensures ViewOf(t.db) == Sequential(src, ViewOf(c.start), c.lastID)
  {
    var p, m := OneReplyLost(c, src, id, e);
    var q;
    q, t := CloseWithError(c, src, m, e);
    HonestRunSound(c, src, m, q, t);
    PlacesAreFinal(c, m, q, t, id);
    HonestRunConcat(c, src, Init(c, false), p, m, q, t);
    acts := p + q;
    OnlyFailedOne(c, src, t, id);
  }
}
