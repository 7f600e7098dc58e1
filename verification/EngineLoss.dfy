/**
 * When can `Update` return nil with a comic missing?  The final loop skips
 * Canceled, so a cancelled call whose publisher does not look at the context may
 * hide a failure.
 */
module EngineLoss {
  import opened Common
  import opened Engine
  import opened EngineInvariant
  import opened EngineTermination
  import opened EngineRefinement
  import opened EngineDrive
  import opened EngineInOrder

  /** The end of a call whose only error is Canceled, with a publisher that does not mind. */
  lemma SkipAndReturn(c: Config, src: Source, s: State) returns (acts: seq<Action>, t: State)
    requires s.producer.Join? && s.wg == 0 && s.errs == [Canceled] && !c.publisher.Broker?
    ensures HonestRun(c, src, s, acts, t) && t.producer == Returned(None) && t.db == s.db
  {
    var s1 := Next(c, s, JoinAll);
    var s2 := Next(c, s1, Drain);
    var s3 := Next(c, s2, Drain);
    OneStep(c, src, s, JoinAll);
    OneStep(c, src, s1, Drain);
    OneStep(c, src, s2, Drain);
    HonestRunConcat(c, src, s1, [Drain], s2, [Drain], s3);
    HonestRunConcat(c, src, s, [JoinAll], s1, [Drain] + [Drain], s3);
    acts, t := [JoinAll] + ([Drain] + [Drain]), s3;
    if !c.publisher.NoPublisher? {
      t := Next(c, s3, Publish(None));
      OneStep(c, src, s3, Publish(None));
      HonestRunConcat(c, src, s, acts, s3, [Publish(None)], t);
      acts := acts + [Publish(None)];
    }
  }

  /** The context ends while worker 0 is inside Get: Get reports Canceled and the worker passes it on. */
  lemma CancelInGet(c: Config, src: Source, s: State) returns (acts: seq<Action>, t: State)
    requires |s.workers| > 0 && s.workers[0].Getting? && !s.ctxDone && c.ctxErr == Canceled
    requires s.errs == [] && c.concurrency >= 1
    ensures HonestRun(c, src, s, acts, t) && Run(c, s, acts, t)
    ensures t == s.(ctxDone := true, workers := s.workers[0 := Idle], errs := [Canceled], sent := s.sent + [Canceled],
                    place := s.place[s.workers[0].id := Failed(false)])
  {
    var a := GetReturns(0, Err(Canceled));
    var s1 := Next(c, s, CancelContext);
    var s2 := Next(c, s1, a);
    assert s2.workers == s.workers[0 := Sending(s.workers[0].id, Canceled, false)];
    t := Next(c, s2, Send(0));
    assert t.workers == s.workers[0 := Idle];
    OneStep(c, src, s, CancelContext);
    OneStep(c, src, s1, a);
    OneStep(c, src, s2, Send(0));
    HonestRunConcat(c, src, s1, [a], s2, [Send(0)], t);
    HonestRunConcat(c, src, s, [CancelContext], s1, [a] + [Send(0)], t);
    acts := [CancelContext] + ([a] + [Send(0)]);
  }

  /** A comic of the site that a call may lose without saying so. */
  ghost predicate Losable(c: Config, src: Source, id: int) {
    && c.Missing(id) && src.find(id).Some?
    && (c.concurrency >= 2 || forall later :: c.Missing(later) ==> later <= id)
  }

  /** Everything is dispatched, worker 0 still inside Get for `id` and the others idle. */
  lemma HoldBack(c: Config, src: Source, id: int) returns (acts: seq<Action>, t: State)
    requires Keyed(src) && c.concurrency >= 1 && Losable(c, src, id)
    ensures HonestRun(c, src, Init(c, false), acts, t) && Undisturbed(c, src, t)
    ensures t.workers == Init(c, false).workers[0 := Getting(id)] && t.next == c.lastID + 1 && id !in t.db
    ensures t.errs == []
  {
    var s := Init(c, false);
    InitInv(c, false);
    InitSound(c, src, false);
    var w := if c.concurrency >= 2 then 1 else 0;
    var p1, s1 := PassUntil(c, src, s, w, id);
    var p2, s2 := Take1(c, src, s1, 0);
    HonestRunSound(c, src, s1, p2, s2);
    var p3;
    p3, t := PassUntil(c, src, s2, w, c.lastID + 1);
    HonestRunConcat(c, src, s1, p2, s2, p3, t);
    HonestRunConcat(c, src, s, p1, s1, p2 + p3, t);
    acts := p1 + (p2 + p3);
    KeyIsFree(c, src, t, 0);
  }

  /** All ids are out and all workers idle: the call closes up and returns nil over its one Canceled. */
  lemma CloseUp(c: Config, src: Source, s: State) returns (acts: seq<Action>, t: State)
    requires Inv(c, s) && s.producer.Feeding? && s.next > c.lastID
    requires s.errs == [Canceled] && !c.publisher.Broker?
    requires forall i :: 0 <= i < |s.workers| ==> s.workers[i].Idle?
    ensures HonestRun(c, src, s, acts, t) && t.producer == Returned(None) && t.db == s.db
  {
    var m := Next(c, s, CloseIds);
    OneStep(c, src, s, CloseIds);
    StepInv(c, s, CloseIds);
    var p, n := LeaveAll(c, src, m);
    var q;
    q, t := SkipAndReturn(c, src, n);
    HonestRunConcat(c, src, m, p, n, q, t);
    HonestRunConcat(c, src, s, [CloseIds], m, p + q, t);
    acts := [CloseIds] + (p + q);
  }

  lemma LoseIt(c: Config, src: Source, id: int) returns (acts: seq<Action>, t: State)
    requires Keyed(src) && c.concurrency >= 1 && Losable(c, src, id)
    requires !c.publisher.Broker? && c.ctxErr == Canceled
    ensures HonestRun(c, src, Init(c, false), acts, t) && t.producer == Returned(None) && id !in t.db
  {
    var s := Init(c, false);
    var p, m := HoldBack(c, src, id);
    var q, n := CancelInGet(c, src, m);
    RunInv(c, m, q, n);
    var r;
    r, t := CloseUp(c, src, n);
    HonestRunConcat(c, src, m, q, n, r, t);
    HonestRunConcat(c, src, s, p, m, q + r, t);
    acts := p + (q + r);
  }

  // ----- What can be lost -----

  lemma LostIsLosable(c: Config, src: Source, ctxDone: bool, acts: seq<Action>, t: State, id: int)
    requires Keyed(src) && c.concurrency >= 1
    requires HonestRun(c, src, Init(c, ctxDone), acts, t) && t.producer == Returned(None)
    requires c.Missing(id) && src.find(id).Some? && id !in t.db
    ensures Losable(c, src, id)
  {
    var s := Init(c, ctxDone);
    InitInv(c, ctxDone);
    InitSound(c, src, ctxDone);
    HonestRunSound(c, src, s, acts, t);
    NilEnds(c, src, t, id);
    if c.concurrency == 1 {
      RunInOrder(c, src, s, acts, t);
      AllCanceled(t.sent);
      assert OnlyCanceled(t);
      forall later | c.Missing(later) ensures later <= id {
        if id < later {
          assert later in t.place && !t.place[later].Held?;
          TwoFailures(t, id, later);
          Overfull(c, t);
        }
      }
    }
  }

  /** Some honest run of the call returns nil and leaves another table than the sequential program. */
  ghost predicate CanLose(c: Config, src: Source) {
    exists ctxDone, acts, t ::
      && HonestRun(c, src, Init(c, ctxDone), acts, t) && t.producer == Returned(None)
      && ViewOf(t.db) != Sequential(src, ViewOf(c.start), c.lastID)
  }

  /**
   * The exact condition, for each call: nil can hide a loss if and only if the
   * publisher does not check the context, the context can end in Canceled, and some
   * missing id has a comic, where a single worker can lose only the last of them.
   */
  lemma CanLoseIff(c: Config, src: Source)
    requires Keyed(src) && c.concurrency >= 1
    ensures CanLose(c, src) <==>
              !c.publisher.Broker? && c.ctxErr == Canceled && exists id :: Losable(c, src, id)
  {
    if ctxDone, acts, t :|
      && HonestRun(c, src, Init(c, ctxDone), acts, t) && t.producer == Returned(None)
      && ViewOf(t.db) != Sequential(src, ViewOf(c.start), c.lastID)
    {
      if c.publisher.Broker? || c.ctxErr != Canceled {
        NilIsSequential(c, src, ctxDone, acts, t);
      }
      var id := LostId(c, src, ctxDone, acts, t);
      LostIsLosable(c, src, ctxDone, acts, t, id);
    }
    if !c.publisher.Broker? && c.ctxErr == Canceled {
      if id :| Losable(c, src, id) {
        var acts, t := LoseIt(c, src, id);
        SequentialIs(src, ViewOf(c.start), c.lastID);
        assert id in Sequential(src, ViewOf(c.start), c.lastID) && id !in ViewOf(t.db);
      }
    }
  }

  lemma LostId(c: Config, src: Source, ctxDone: bool, acts: seq<Action>, t: State) returns (id: int)
    requires Keyed(src) && c.concurrency >= 1
    requires HonestRun(c, src, Init(c, ctxDone), acts, t)
    requires ViewOf(t.db) != Sequential(src, ViewOf(c.start), c.lastID)
    ensures c.Missing(id) && src.find(id).Some? && id !in t.db
  {
    InitInv(c, ctxDone);
    InitSound(c, src, ctxDone);
    HonestRunSound(c, src, Init(c, ctxDone), acts, t);
    if forall x :: c.Missing(x) && src.find(x).Some? ==> x in t.db {
      NothingMissing(c, src, t);
    }
    id :| c.Missing(id) && src.find(id).Some? && id !in t.db;
  }

  const ONE_COMIC: Source :=
    Source(id => if id == 1 then Some(Info(1, "u", "d")) else None, _ => {}, 1)

  /** From an empty table an honest run adds only the ids up to lastID. */
  lemma NothingElse(c: Config, src: Source, acts: seq<Action>, t: State)
    requires c.start == map[] && Keyed(src) && c.concurrency >= 1
    requires HonestRun(c, src, Init(c, false), acts, t)
    requires forall id :: 1 <= id <= c.lastID ==> id !in t.db
    ensures t.db == map[]
  {
    InitInv(c, false);
    InitSound(c, src, false);
    HonestRunSound(c, src, Init(c, false), acts, t);
    PartialUpdate(c, src, t);
    forall id ensures id !in t.db {
      assert id in t.db ==> id in ViewOf(t.db) && id !in ViewOf(c.start);
    }
  }

  /** The smallest case: one worker, one comic, and nothing in the table when nil comes back. */
  lemma LostComic(publisher: Publisher) returns (acts: seq<Action>, t: State)
    requires !publisher.Broker?
    ensures var c := Config(1, 1, map[], Canceled, publisher);
            && HonestRun(c, ONE_COMIC, Init(c, false), acts, t)
            && t.producer == Returned(None) && t.db == map[]
  {
    var c := Config(1, 1, map[], Canceled, publisher);
    assert Losable(c, ONE_COMIC, 1);
    acts, t := LoseIt(c, ONE_COMIC, 1);
    NothingElse(c, ONE_COMIC, acts, t);
  }

  /** A nil result can be trusted under this publisher and this kind of context. */
  ghost predicate NilIsComplete(publisher: Publisher, ctxErr: Error) {
    forall n: nat, last, start, src, ctxDone, acts, t |
      && n >= 1 && Keyed(src)
      && var c := Config(n, last, start, ctxErr, publisher);
         HonestRun(c, src, Init(c, ctxDone), acts, t) && t.producer == Returned(None)
      :: ViewOf(t.db) == Sequential(src, ViewOf(start), last)
  }

  /** Over all calls: exactly the guard in `Publish`, or a context without Canceled, makes nil complete. */
  lemma NilIsCompleteIff(publisher: Publisher, ctxErr: Error)
    ensures NilIsComplete(publisher, ctxErr) <==> publisher.Broker? || ctxErr != Canceled
  {
    if publisher.Broker? || ctxErr != Canceled {
      forall n: nat, last, start, src, ctxDone, acts, t |
        && n >= 1 && Keyed(src)
        && var c := Config(n, last, start, ctxErr, publisher);
           HonestRun(c, src, Init(c, ctxDone), acts, t) && t.producer == Returned(None)
        ensures ViewOf(t.db) == Sequential(src, ViewOf(start), last)
      {
        NilIsSequential(Config(n, last, start, ctxErr, publisher), src, ctxDone, acts, t);
      }
    } else {
      var acts, t := LostComic(publisher);
      var c := Config(1, 1, map[], Canceled, publisher);
      SequentialIs(ONE_COMIC, ViewOf(map[]), 1);
      assert 1 in Sequential(ONE_COMIC, ViewOf(map[]), 1);
      assert HonestRun(c, ONE_COMIC, Init(c, false), acts, t);
    }
  }
}
