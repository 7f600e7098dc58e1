/** What a call returns, from its actions alone, and where an error comes from. */
module EngineResult {
  import opened Common
  import opened Engine
  import opened EngineInvariant
  import opened EngineTrace

  /** The call has taken the cancel path, or has published, exactly if the actions say so. */
  ghost predicate EndMatches(c: Config, acts: seq<Action>, s: State) {
    && (Abort in acts <==> s.next <= c.lastID && !s.producer.Feeding?)
    && (forall r :: Publish(r) in acts ==>
          s.producer == Returned(r) && c.lastID < s.next && FirstReal(s.sent) == None && !c.publisher.NoPublisher?)
  }

  /** The context was done before Publish was called. */
  predicate PublishesLate(ctxDone: bool, acts: seq<Action>) {
    acts != [] && (if acts[|acts| - 1].Publish? then DoneBy(ctxDone, acts[..|acts| - 1])
                   else PublishesLate(ctxDone, acts[..|acts| - 1]))
  }

  ghost predicate LateMatches(c: Config, ctxDone: bool, acts: seq<Action>, s: State) {
    c.publisher.Broker? && PublishesLate(ctxDone, acts) ==> s.producer == Returned(Some(c.ctxErr))
  }

  lemma StepEnd(c: Config, acts: seq<Action>, s: State, a: Action)
    requires Inv(c, s) && EndMatches(c, acts, s) && Enabled(c, s, a)
    ensures EndMatches(c, acts + [a], Next(c, s, a))
  {
    SnocParts(acts, a);
    if OfProducer(a) {
      ProducerMoves(c, s, a);
    } else if !a.Dispatch? {
      WorkerSteps(c, s, a);
    }
  }

  lemma ProducerStays(c: Config, s: State, a: Action)
    requires Enabled(c, s, a) && (s.producer.Returned? || !OfProducer(a))
    ensures Next(c, s, a).producer == s.producer
  {
    if !OfProducer(a) && !a.Dispatch? {
      WorkerSteps(c, s, a);
    }
  }

  lemma StepLate(c: Config, ctxDone: bool, acts: seq<Action>, s: State, a: Action)
    requires LateMatches(c, ctxDone, acts, s) && (s.ctxDone <==> DoneBy(ctxDone, acts)) && Enabled(c, s, a)
    ensures LateMatches(c, ctxDone, acts + [a], Next(c, s, a))
  {
    SnocParts(acts, a);
    if s.producer.Returned? {
      ProducerStays(c, s, a);
    }
  }

  lemma ContextOfActions(c: Config, ctxDone: bool, acts: seq<Action>, s: State)
    requires c.concurrency >= 1 && Run(c, Init(c, ctxDone), acts, s)
    ensures Inv(c, s) && (s.ctxDone <==> DoneBy(ctxDone, acts))
  {
    ActionsTell(c, ctxDone, acts, s);
  }

  lemma {:induction false} ActionsTellEnd(c: Config, ctxDone: bool, acts: seq<Action>, s: State)
    requires c.concurrency >= 1 && Run(c, Init(c, ctxDone), acts, s)
    ensures EndMatches(c, acts, s)
  {
    if acts == [] {
    } else {
      var n := |acts| - 1;
      var m := RunLast(c, Init(c, ctxDone), acts, s);
      ActionsTellEnd(c, ctxDone, acts[..n], m);
      ContextOfActions(c, ctxDone, acts[..n], m);
      StepEnd(c, acts[..n], m, acts[n]);
      assert acts[..n] + [acts[n]] == acts;
    }
  }

  lemma {:induction false} ActionsTellLate(c: Config, ctxDone: bool, acts: seq<Action>, s: State)
    requires c.concurrency >= 1 && Run(c, Init(c, ctxDone), acts, s)
    ensures LateMatches(c, ctxDone, acts, s)
  {
    if acts == [] {
    } else {
      var n := |acts| - 1;
      var m := RunLast(c, Init(c, ctxDone), acts, s);
      ActionsTellLate(c, ctxDone, acts[..n], m);
      ContextOfActions(c, ctxDone, acts[..n], m);
      StepLate(c, ctxDone, acts[..n], m, acts[n]);
      assert acts[..n] + [acts[n]] == acts;
    }
  }

  /**
   * The result, from the actions alone.  On the cancel path it is the context's
   * error, and nothing has been published; otherwise the first error sent that is
   * not Canceled, and nothing has been published; otherwise what Publish returned,
   * or nil without a publisher.  The broker returns the context's error once that is done.
   */
  lemma ResultOfActions(c: Config, ctxDone: bool, acts: seq<Action>, s: State)
    requires c.concurrency >= 1 && Run(c, Init(c, ctxDone), acts, s) && s.producer.Returned?
    ensures var r, first := s.producer.err, FirstReal(ErrorLog(c, ctxDone, acts));
            && (Abort in acts ==> r == Some(c.ctxErr))
            && (Abort !in acts && first != None ==> r == first)
            && (Abort !in acts && first == None && c.publisher.NoPublisher? ==> r == None)
            && (Abort !in acts && first == None && !c.publisher.NoPublisher? ==> Publish(r) in acts)
            && (forall e :: Publish(e) in acts ==> Abort !in acts && first == None && !c.publisher.NoPublisher?)
            && (c.publisher.Broker? && PublishesLate(ctxDone, acts) ==> r == Some(c.ctxErr))
  {
    ActionsTellEnd(c, ctxDone, acts, s);
    ActionsTellLate(c, ctxDone, acts, s);
    SentIsErrorLog(c, ctxDone, acts, s);
    ReturnedError(c, ctxDone, acts, s);
  }

  /** Action number `i` gave its worker the error `e`. */
  predicate Gives(c: Config, ctxDone: bool, acts: seq<Action>, i: int, e: Error) {
    0 <= i < |acts| && ErrorOf(c, DoneBy(ctxDone, acts[..i]), acts[i]) == Some(e)
  }

  lemma {:induction false} LastErrorHasSource(c: Config, ctxDone: bool, acts: seq<Action>, w: nat)
    ensures LastError(c, ctxDone, acts, w).Some? ==>
              exists i :: Gives(c, ctxDone, acts, i, LastError(c, ctxDone, acts, w).value)
  {
    if acts == [] {
    } else {
      var n := |acts| - 1;
      LastErrorHasSource(c, ctxDone, acts[..n], w);
      if i :| LastError(c, ctxDone, acts[..n], w).Some?
              && Gives(c, ctxDone, acts[..n], i, LastError(c, ctxDone, acts[..n], w).value)
      {
        assert acts[..n][..i] == acts[..i];
        assert Gives(c, ctxDone, acts, i, LastError(c, ctxDone, acts[..n], w).value);
      }
      var e := ErrorOf(c, DoneBy(ctxDone, acts[..n]), acts[n]);
      assert e.Some? ==> Gives(c, ctxDone, acts, n, e.value);
    }
  }

  /** No error is made up: each one sent was given to its worker by the context or by a collaborator. */
  lemma {:induction false} LogHasSources(c: Config, ctxDone: bool, acts: seq<Action>, e: Error)
    requires e in ErrorLog(c, ctxDone, acts)
    ensures exists i :: Gives(c, ctxDone, acts, i, e)
  {
    var n := |acts| - 1;
    var before := acts[..n];
    if e in ErrorLog(c, ctxDone, before) {
      LogHasSources(c, ctxDone, before, e);
      var i :| Gives(c, ctxDone, before, i, e);
      assert before[..i] == acts[..i];
      assert Gives(c, ctxDone, acts, i, e);
    } else {
      LastErrorHasSource(c, ctxDone, before, acts[n].w);
      var i :| Gives(c, ctxDone, before, i, e);
      assert before[..i] == acts[..i];
      assert Gives(c, ctxDone, acts, i, e);
    }
  }

  lemma {:induction false} FirstRealIsSent(sent: seq<Error>)
    ensures FirstReal(sent).Some? ==> FirstReal(sent).value in sent && FirstReal(sent).value != Canceled
  {
    if sent == [] {
    } else {
      FirstRealIsSent(sent[1..]);
    }
  }

  /** Where an error that `Update` returns comes from. */
  lemma ErrorHasSource(c: Config, ctxDone: bool, acts: seq<Action>, s: State, e: Error)
    requires c.concurrency >= 1 && Run(c, Init(c, ctxDone), acts, s) && s.producer == Returned(Some(e))
    ensures || (e == c.ctxErr && Abort in acts)
            || (e != Canceled && exists i :: Gives(c, ctxDone, acts, i, e))
            || Publish(Some(e)) in acts
  {
    ResultOfActions(c, ctxDone, acts, s);
    FirstRealIsSent(ErrorLog(c, ctxDone, acts));
    if e in ErrorLog(c, ctxDone, acts) {
      LogHasSources(c, ctxDone, acts, e);
    }
  }
}
