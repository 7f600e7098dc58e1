/** What every step of an `Update` call keeps, whatever the outside world does. */
module EngineInvariant {
  import opened Common
  import opened Engine

  function Sum(ws: seq<Worker>, f: Worker -> nat): nat {
    if ws == [] then 0 else Sum(ws[..|ws| - 1], f) + f(ws[|ws| - 1])
  }

  lemma {:induction false} SumUpdate(ws: seq<Worker>, i: nat, w: Worker, f: Worker -> nat)
    requires i < |ws|
    ensures Sum(ws[i := w], f) + f(ws[i]) == Sum(ws, f) + f(w)
  {
    var n := |ws| - 1;
    if i == n {
      assert ws[i := w][..n] == ws[..n];
    } else {
      SumUpdate(ws[..n], i, w, f);
      assert ws[i := w][..n] == ws[..n][i := w];
    }
  }

  lemma {:induction false} SumZero(ws: seq<Worker>, f: Worker -> nat)
    ensures Sum(ws, f) == 0 <==> forall i :: 0 <= i < |ws| ==> f(ws[i]) == 0
  {
    if ws == [] {
    } else {
      var n := |ws| - 1;
      SumZero(ws[..n], f);
      assert forall i :: 0 <= i < n ==> ws[..n][i] == ws[i];
    }
  }

  lemma {:induction false} SumConstant(ws: seq<Worker>, f: Worker -> nat, v: nat)
    requires forall i :: 0 <= i < |ws| ==> f(ws[i]) == v
    ensures Sum(ws, f) == |ws| * v
  {
    if ws == [] {
    } else {
      SumConstant(ws[..|ws| - 1], f, v);
      assert |ws| * v == (|ws| - 1) * v + v;
    }
  }

  function LiveOf(w: Worker): nat { if w.Exited? then 0 else 1 }

  function SendingOf(w: Worker): nat { if w.Sending? then 1 else 0 }

  predicate Holding(w: Worker) {
    w.Received? || w.Getting? || w.Norming? || w.Adding?
  }

  /** The first error the final loop does not skip, in send order. */
  function FirstReal(sent: seq<Error>): Option<Error> {
    if sent == [] then None
    else if sent[0] != Canceled then Some(sent[0])
    else FirstReal(sent[1..])
  }

  /** Channels, waitgroup and program counters fit together. */
  ghost predicate Discipline(c: Config, s: State) {
    && c.concurrency >= 1
    && |s.workers| == c.concurrency
    && s.next >= 1
    && s.wg == Sum(s.workers, LiveOf)
    && (s.idsClosed <==> !s.producer.Feeding?)
    && (s.errClosed <==> s.producer.Draining? || s.producer.Publishing? || s.producer.Returned?)
    && (s.errClosed ==> forall i :: 0 <= i < |s.workers| ==> s.workers[i].Exited?)
    && (forall i :: 0 <= i < |s.workers| && s.workers[i].Exited? ==> s.idsClosed || s.ctxDone)
    && (forall i :: 0 <= i < |s.workers| && s.workers[i].Sending? && s.workers[i].exit ==> s.ctxDone)
    && (s.producer.AbortJoin? ==> s.next <= c.lastID && s.ctxDone)
    && (s.producer.Join? || s.producer.Draining? || s.producer.Publishing? ==> c.lastID < s.next)
  }

  /** errCh holds what was sent and not yet drained; draining stops at the right error. */
  ghost predicate ErrorOrder(c: Config, s: State) {
    && |s.errs| <= |s.sent| <= c.concurrency
    && (!s.errClosed ==> s.errs == s.sent)
    && (s.producer.Draining? ==> FirstReal(s.errs) == FirstReal(s.sent))
    && (s.producer.Publishing? ==> FirstReal(s.sent) == None && !c.publisher.NoPublisher?)
    && (s.producer.Returned? ==>
          if s.next <= c.lastID then s.producer.err == Some(c.ctxErr) && s.errs == s.sent
          else if FirstReal(s.sent) != None then s.producer.err == FirstReal(s.sent)
          else c.publisher.NoPublisher? ==> s.producer.err == None)
  }

  /** Every dispatched id is in exactly one place, and the workers agree on which. */
  ghost predicate Conservation(c: Config, s: State) {
    && (forall id :: id in s.place <==> 1 <= id < s.next && id !in c.start)
    && (s.next == 1 || s.next <= c.lastID + 1)
    && (forall id :: id in s.place && s.place[id].Held? ==>
          && s.place[id].worker < |s.workers|
          && Holding(s.workers[s.place[id].worker])
          && s.workers[s.place[id].worker].id == id)
    && (forall i :: 0 <= i < |s.workers| && Holding(s.workers[i]) ==>
          s.workers[i].id in s.place && s.place[s.workers[i].id] == Held(i))
    && (forall i :: 0 <= i < |s.workers| && s.workers[i].Sending? ==>
          s.workers[i].id in s.place && s.place[s.workers[i].id].Failed?)
  }

  function FailedIds(s: State): set<int> {
    set id | id in s.place && s.place[id].Failed?
  }

  /** Each failed id has caused exactly one send, done or still pending. */
  ghost predicate Tally(s: State) {
    |FailedIds(s)| == |s.sent| + Sum(s.workers, SendingOf)
  }

  ghost predicate Inv(c: Config, s: State) {
    Discipline(c, s) && ErrorOrder(c, s) && Conservation(c, s) && Tally(s)
  }

  lemma InitInv(c: Config, ctxDone: bool)
    requires c.concurrency >= 1
    ensures Inv(c, Init(c, ctxDone))
  {
    var s := Init(c, ctxDone);
    SumConstant(s.workers, LiveOf, 1);
    SumConstant(s.workers, SendingOf, 0);
    assert FailedIds(s) == {};
  }

  predicate OfProducer(a: Action) {
    a.CancelContext? || a.Skip? || a.Abort? || a.CloseIds? || a.JoinAbort? || a.JoinAll? || a.Drain? || a.Publish?
  }

  /** How many steps a worker may still need before it has exited or asks for an id. */
  function WeightOf(w: Worker): nat {
    match w
    case Exited => 0
    case Idle => 1
    case Sending(_, _, _) => 2
    case Adding(_, _, _) => 3
    case Norming(_, _) => 4
    case Getting(_) => 5
    case Received(_) => 6
  }

  /** A worker goes on with the id it holds. */
  ghost predicate Advances(s: State, t: State, w: nat) {
    && w < |s.workers| == |t.workers|
    && Holding(s.workers[w]) && Holding(t.workers[w]) && t.workers[w].id == s.workers[w].id
    && WeightOf(t.workers[w]) < WeightOf(s.workers[w])
    && t == s.(workers := s.workers[w := t.workers[w]])
  }

  /** A worker lets go of the id it holds: `p` is where the id ends. */
  ghost predicate Settles(s: State, t: State, w: nat, p: Place) {
    && w < |s.workers| == |t.workers|
    && Holding(s.workers[w]) && !p.Held?
    && (if p.Failed? then
          t.workers[w].Sending? && t.workers[w].id == s.workers[w].id && (t.workers[w].exit ==> s.ctxDone)
        else t.workers[w].Idle?)
    && t == s.(workers := s.workers[w := t.workers[w]], place := s.place[s.workers[w].id := p], db := t.db)
  }

  /** A worker puts its error into errCh. */
  ghost predicate Delivers(c: Config, s: State, t: State, w: nat) {
    && w < |s.workers| == |t.workers|
    && s.workers[w].Sending? && |s.errs| < c.concurrency
    && t.workers[w] == (if s.workers[w].exit then Exited else Idle)
    && t == s.(workers := s.workers[w := t.workers[w]], errs := s.errs + [s.workers[w].err],
               sent := s.sent + [s.workers[w].err], wg := if s.workers[w].exit then s.wg - 1 else s.wg)
  }

  /** A worker finds idsCh closed. */
  ghost predicate Quits(s: State, t: State, w: nat) {
    && w < |s.workers| == |t.workers|
    && s.workers[w].Idle? && s.idsClosed && t.workers[w].Exited?
    && t == s.(workers := s.workers[w := t.workers[w]], wg := s.wg - 1)
  }

  /** The place an id ends in, when action `a` settles it. */
  function EndOf(a: Action): Place {
    match a
    case GetReturns(_, r) => if r == Err(NotFound) then Nowhere else Failed(false)
    case AddReturns(_, r, stored) => if r.None? then Stored else Failed(stored)
    case _ => Failed(false)
  }

  lemma CheckMoves(c: Config, s: State, w: nat)
    requires Enabled(c, s, Check(w))
    ensures Advances(s, Next(c, s, Check(w)), w) || Settles(s, Next(c, s, Check(w)), w, Failed(false))
  {
  }

  lemma GetMoves(c: Config, s: State, a: Action)
    requires Enabled(c, s, a) && a.GetReturns?
    ensures if a.got.Ok? then Advances(s, Next(c, s, a), a.w) else Settles(s, Next(c, s, a), a.w, EndOf(a))
  {
  }

  lemma NormMoves(c: Config, s: State, a: Action)
    requires Enabled(c, s, a) && a.NormReturns?
    ensures if a.normed.Ok? then Advances(s, Next(c, s, a), a.w) else Settles(s, Next(c, s, a), a.w, EndOf(a))
  {
  }

  lemma AddSettles(c: Config, s: State, a: Action)
    requires Enabled(c, s, a) && a.AddReturns?
    ensures Settles(s, Next(c, s, a), a.w, EndOf(a))
  {
  }

  /** Beside taking up an id, a worker does one of four things. */
  lemma WorkerSteps(c: Config, s: State, a: Action)
    requires Enabled(c, s, a) && !OfProducer(a) && !a.Dispatch?
    ensures var t := Next(c, s, a);
            || Advances(s, t, a.w)
            || Settles(s, t, a.w, EndOf(a))
            || Delivers(c, s, t, a.w)
            || Quits(s, t, a.w)
  {
    if a.AddReturns? {
      AddSettles(c, s, a);
    } else if a.Send? {
      assert Delivers(c, s, Next(c, s, a), a.w);
    } else if a.Leave? {
      assert Quits(s, Next(c, s, a), a.w);
    } else if a.Check? {
      CheckMoves(c, s, a.w);
    } else if a.GetReturns? {
      GetMoves(c, s, a);
    } else {
      NormMoves(c, s, a);
    }
  }

  lemma ProducerDiscipline(c: Config, s: State, a: Action)
    requires Discipline(c, s) && Enabled(c, s, a) && OfProducer(a)
    ensures Discipline(c, Next(c, s, a))
  {
    SumZero(s.workers, LiveOf);
    assert s.wg == 0 ==> forall i :: 0 <= i < |s.workers| ==> LiveOf(s.workers[i]) == 0;
  }

  lemma WorkerDiscipline(c: Config, s: State, t: State, w: nat, p: Place)
    requires Discipline(c, s)
    requires Advances(s, t, w) || Settles(s, t, w, p) || Delivers(c, s, t, w) || Quits(s, t, w)
    ensures Discipline(c, t)
  {
    SumUpdate(s.workers, w, t.workers[w], LiveOf);
    assert !s.workers[w].Exited?;
  }

  lemma ProducerErrorOrder(c: Config, s: State, a: Action)
    requires Discipline(c, s) && ErrorOrder(c, s) && Enabled(c, s, a) && OfProducer(a)
    ensures ErrorOrder(c, Next(c, s, a))
  {
  }

  lemma WorkerErrorOrder(c: Config, s: State, t: State, w: nat, p: Place)
    requires Discipline(c, s) && ErrorOrder(c, s)
    requires Advances(s, t, w) || Settles(s, t, w, p) || Delivers(c, s, t, w) || Quits(s, t, w)
    ensures ErrorOrder(c, t)
  {
    assert !s.workers[w].Exited?;
    assert !s.errClosed;
  }

  lemma ProducerMoves(c: Config, s: State, a: Action)
    requires Enabled(c, s, a) && OfProducer(a)
    ensures var t := Next(c, s, a);
            && t.workers == s.workers && t.place == s.place && t.sent == s.sent && t.db == s.db
            && (if a.Skip? then t.next == s.next + 1 else t.next == s.next)
  {
  }

  lemma CheckOnlyReads(c: Config, s: State, w: nat)
    requires Enabled(c, s, Check(w))
    ensures Next(c, s, Check(w)).db == s.db
  {
  }

  lemma GetOnlyReads(c: Config, s: State, a: Action)
    requires Enabled(c, s, a) && a.GetReturns?
    ensures Next(c, s, a).db == s.db
  {
  }

  lemma NormOnlyReads(c: Config, s: State, a: Action)
    requires Enabled(c, s, a) && a.NormReturns?
    ensures Next(c, s, a).db == s.db
  {
  }

  /** Nothing but an insertion that lands changes the table. */
  lemma OnlyAddWrites(c: Config, s: State, a: Action)
    requires Enabled(c, s, a)
    ensures Next(c, s, a).db != s.db ==> a.AddReturns? && a.stored
  {
    if OfProducer(a) {
      ProducerMoves(c, s, a);
    } else if a.Check? {
      CheckOnlyReads(c, s, a.w);
    } else if a.GetReturns? {
      GetOnlyReads(c, s, a);
    } else if a.NormReturns? {
      NormOnlyReads(c, s, a);
    }
  }

  lemma ProducerConservation(c: Config, s: State, t: State)
    requires Conservation(c, s) && t.workers == s.workers && t.place == s.place
    requires t.next == s.next || (t.next == s.next + 1 && s.next <= c.lastID && s.next in c.start)
    ensures Conservation(c, t)
  {
  }

  lemma DispatchConservation(c: Config, s: State, w: nat)
    requires Conservation(c, s) && s.next >= 1 && Enabled(c, s, Dispatch(w))
    ensures Conservation(c, Next(c, s, Dispatch(w)))
  {
  }

  lemma SettleConservation(c: Config, s: State, t: State, w: nat, p: Place)
    requires Conservation(c, s) && Settles(s, t, w, p)
    ensures Conservation(c, t)
  {
    var id := s.workers[w].id;
    assert s.place[id] == Held(w);
    assert forall i :: 0 <= i < |s.workers| && i != w ==> t.workers[i] == s.workers[i];
  }

  lemma AdvanceConservation(c: Config, s: State, t: State, w: nat)
    requires Conservation(c, s) && Advances(s, t, w)
    ensures Conservation(c, t)
  {
    assert forall i :: 0 <= i < |s.workers| && i != w ==> t.workers[i] == s.workers[i];
  }

  lemma FreeConservation(c: Config, s: State, t: State, w: nat)
    requires Conservation(c, s) && w < |s.workers| == |t.workers|
    requires !Holding(s.workers[w]) && (t.workers[w].Idle? || t.workers[w].Exited?)
    requires t.workers == s.workers[w := t.workers[w]] && t.place == s.place && t.next == s.next
    ensures Conservation(c, t)
  {
    assert forall i :: 0 <= i < |s.workers| && i != w ==> t.workers[i] == s.workers[i];
    forall id | id in t.place && t.place[id].Held?
      ensures t.place[id].worker < |t.workers| && t.place[id].worker != w
    {
      assert Holding(s.workers[s.place[id].worker]);
    }
  }

  lemma WorkerConservation(c: Config, s: State, t: State, w: nat, p: Place)
    requires Conservation(c, s)
    requires Advances(s, t, w) || Settles(s, t, w, p) || Delivers(c, s, t, w) || Quits(s, t, w)
    ensures Conservation(c, t)
  {
    if Advances(s, t, w) {
      AdvanceConservation(c, s, t, w);
    } else if Settles(s, t, w, p) {
      SettleConservation(c, s, t, w, p);
    } else {
      FreeConservation(c, s, t, w);
    }
  }

  lemma SettleTally(c: Config, s: State, t: State, w: nat, p: Place)
    requires Conservation(c, s) && Tally(s) && Settles(s, t, w, p)
    ensures Tally(t)
  {
    var id := s.workers[w].id;
    SumUpdate(s.workers, w, t.workers[w], SendingOf);
    assert s.place[id] == Held(w);
    assert FailedIds(t) == if p.Failed? then FailedIds(s) + {id} else FailedIds(s);
  }

  lemma WorkerTally(c: Config, s: State, t: State, w: nat, p: Place)
    requires Conservation(c, s) && Tally(s)
    requires Advances(s, t, w) || Settles(s, t, w, p) || Delivers(c, s, t, w) || Quits(s, t, w)
    ensures Tally(t)
  {
    if Settles(s, t, w, p) {
      SettleTally(c, s, t, w, p);
    } else {
      SumUpdate(s.workers, w, t.workers[w], SendingOf);
      assert FailedIds(t) == FailedIds(s);
    }
  }

  lemma ProducerInv(c: Config, s: State, a: Action)
    requires Inv(c, s) && Enabled(c, s, a) && OfProducer(a)
    ensures Inv(c, Next(c, s, a))
  {
    ProducerDiscipline(c, s, a);
    ProducerErrorOrder(c, s, a);
    ProducerMoves(c, s, a);
    ProducerConservation(c, s, Next(c, s, a));
    assert FailedIds(Next(c, s, a)) == FailedIds(s);
  }

  lemma DispatchInv(c: Config, s: State, w: nat)
    requires Inv(c, s) && Enabled(c, s, Dispatch(w))
    ensures Inv(c, Next(c, s, Dispatch(w)))
  {
    var t := Next(c, s, Dispatch(w));
    SumUpdate(s.workers, w, t.workers[w], LiveOf);
    SumUpdate(s.workers, w, t.workers[w], SendingOf);
    DispatchConservation(c, s, w);
    assert FailedIds(t) == FailedIds(s);
  }

  lemma WorkerInv(c: Config, s: State, t: State, w: nat, p: Place)
    requires Inv(c, s)
    requires Advances(s, t, w) || Settles(s, t, w, p) || Delivers(c, s, t, w) || Quits(s, t, w)
    ensures Inv(c, t)
  {
    WorkerDiscipline(c, s, t, w, p);
    WorkerErrorOrder(c, s, t, w, p);
    WorkerConservation(c, s, t, w, p);
    WorkerTally(c, s, t, w, p);
  }

  /** Every step of every goroutine keeps the whole invariant. */
  lemma StepInv(c: Config, s: State, a: Action)
    requires Inv(c, s) && Enabled(c, s, a)
    ensures Inv(c, Next(c, s, a))
  {
    if OfProducer(a) {
      ProducerInv(c, s, a);
    } else if a.Dispatch? {
      DispatchInv(c, s, a.w);
    } else {
      WorkerSteps(c, s, a);
      WorkerInv(c, s, Next(c, s, a), a.w, EndOf(a));
    }
  }

  lemma {:induction false} RunConcat(c: Config, s: State, p: seq<Action>, t: State, q: seq<Action>, u: State)
    requires Run(c, s, p, t) && Run(c, t, q, u)
    ensures Run(c, s, p + q, u)
    decreases |p|
  {
    if p == [] {
      assert p + q == q;
    } else {
      RunConcat(c, Next(c, s, p[0]), p[1..], t, q, u);
      assert (p + q)[0] == p[0] && (p + q)[1..] == p[1..] + q;
    }
  }

  /** The state before the last step of a run. */
  lemma {:induction false} RunLast(c: Config, s: State, acts: seq<Action>, t: State) returns (m: State)
    requires acts != [] && Run(c, s, acts, t)
    ensures Run(c, s, acts[..|acts| - 1], m)
    ensures Enabled(c, m, acts[|acts| - 1]) && t == Next(c, m, acts[|acts| - 1])
    decreases |acts|
  {
    if |acts| == 1 {
      m := s;
    } else {
      m := RunLast(c, Next(c, s, acts[0]), acts[1..], t);
      assert acts[..|acts| - 1][1..] == acts[1..][..|acts[1..]| - 1];
    }
  }

  lemma {:induction false} RunInv(c: Config, s: State, acts: seq<Action>, t: State)
    requires Inv(c, s) && Run(c, s, acts, t)
    ensures Inv(c, t)
    decreases |acts|
  {
    if acts == [] {
    } else {
      StepInv(c, s, acts[0]);
      RunInv(c, Next(c, s, acts[0]), acts[1..], t);
    }
  }

  // ----- What this means for a call, over all its runs -----

  /**
   * A send on a closed channel, a second close and a negative waitgroup would
   * panic: no step does any of them, and a call that returns leaves no worker.
   */
  lemma ChannelDiscipline(c: Config, ctxDone: bool, acts: seq<Action>, s: State, a: Action)
    requires c.concurrency >= 1
    requires Run(c, Init(c, ctxDone), acts, s) && Enabled(c, s, a)
    ensures a.Dispatch? || a.Abort? || a.CloseIds? ==> !s.idsClosed
    ensures a.Send? || a.JoinAbort? || a.JoinAll? ==> !s.errClosed
    ensures s.wg == Sum(s.workers, LiveOf) && Next(c, s, a).wg >= 0
    ensures a.JoinAbort? || a.JoinAll? ==> forall i :: 0 <= i < |s.workers| ==> s.workers[i].Exited?
    ensures s.producer.Returned? ==> s.wg == 0 && forall i :: 0 <= i < |s.workers| ==> s.workers[i].Exited?
  {
    InitInv(c, ctxDone);
    RunInv(c, Init(c, ctxDone), acts, s);
    StepInv(c, s, a);
    SumZero(s.workers, LiveOf);
    assert a.Send? ==> !s.workers[a.w].Exited?;
  }

  /** A step that ends the call, without a real error and off the cancel path, is the publication. */
  lemma EndsByPublish(c: Config, s: State, a: Action)
    requires Inv(c, s) && Enabled(c, s, a) && !s.producer.Returned? && Next(c, s, a).producer.Returned?
    requires c.lastID < Next(c, s, a).next && FirstReal(Next(c, s, a).sent) == None && !c.publisher.NoPublisher?
    ensures a == Publish(Next(c, s, a).producer.err)
  {
    StepInv(c, s, a);
    if OfProducer(a) {
      ProducerMoves(c, s, a);
    } else if !a.Dispatch? {
      WorkerSteps(c, s, a);
    }
  }

  /** Once returned, a call sends nothing more and keeps its result. */
  lemma {:induction false} ResultStays(c: Config, s: State, acts: seq<Action>, t: State)
    requires Inv(c, s) && Run(c, s, acts, t) && s.producer.Returned?
    ensures t.producer == s.producer && t.sent == s.sent && t.next == s.next
    decreases |acts|
  {
    if acts == [] {
    } else {
      var a := acts[0];
      assert a.CancelContext?;
      StepInv(c, s, a);
      ResultStays(c, Next(c, s, a), acts[1..], t);
    }
  }

  lemma {:induction false} ResultOfPublish(c: Config, s: State, acts: seq<Action>, t: State)
    requires Inv(c, s) && Run(c, s, acts, t) && !s.producer.Returned? && t.producer.Returned?
    requires c.lastID < t.next && FirstReal(t.sent) == None && !c.publisher.NoPublisher?
    ensures Publish(t.producer.err) in acts
    decreases |acts|
  {
    if acts == [] {
      assert false;
    } else {
      var a, m := acts[0], Next(c, s, acts[0]);
      StepInv(c, s, a);
      if m.producer.Returned? {
        ResultStays(c, m, acts[1..], t);
        EndsByPublish(c, s, a);
      } else {
        ResultOfPublish(c, m, acts[1..], t);
      }
    }
  }

  /**
   * The error a call returns: the context's own on the cancel path, with errCh
   * left undrained; otherwise the first sent error that is not Canceled;
   * otherwise what Publish has returned, or nil without a publisher.
   */
  lemma ReturnedError(c: Config, ctxDone: bool, acts: seq<Action>, s: State)
    requires c.concurrency >= 1 && Run(c, Init(c, ctxDone), acts, s) && s.producer.Returned?
    ensures s.next <= c.lastID ==> s.producer.err == Some(c.ctxErr) && s.errs == s.sent
    ensures c.lastID < s.next && FirstReal(s.sent) != None ==> s.producer.err == FirstReal(s.sent)
    ensures c.lastID < s.next && FirstReal(s.sent) == None && c.publisher.NoPublisher? ==> s.producer.err == None
    ensures c.lastID < s.next && FirstReal(s.sent) == None && !c.publisher.NoPublisher? ==>
              Publish(s.producer.err) in acts
  {
    InitInv(c, ctxDone);
    RunInv(c, Init(c, ctxDone), acts, s);
    if c.lastID < s.next && FirstReal(s.sent) == None && !c.publisher.NoPublisher? {
      ResultOfPublish(c, Init(c, ctxDone), acts, s);
    }
  }

  function HoldingOf(w: Worker): nat { if Holding(w) then 1 else 0 }

  function HeldIds(s: State): set<int> {
    set id | id in s.place && s.place[id].Held?
  }

  function StoredIds(s: State): set<int> {
    set id | id in s.place && s.place[id].Stored?
  }

  function NowhereIds(s: State): set<int> {
    set id | id in s.place && s.place[id].Nowhere?
  }

  function HeldBelow(s: State, n: nat): set<int> {
    set id | id in s.place && s.place[id].Held? && s.place[id].worker < n
  }

  lemma HeldByOne(c: Config, s: State, n: nat)
    requires Conservation(c, s) && n < |s.workers|
    ensures Holding(s.workers[n]) ==>
              s.workers[n].id !in HeldBelow(s, n) && HeldBelow(s, n + 1) == HeldBelow(s, n) + {s.workers[n].id}
    ensures !Holding(s.workers[n]) ==> HeldBelow(s, n + 1) == HeldBelow(s, n)
  {
    forall id | id in HeldBelow(s, n + 1) && id !in HeldBelow(s, n)
      ensures Holding(s.workers[n]) && s.workers[n].id == id
    {
      assert s.place[id].worker == n;
    }
    if Holding(s.workers[n]) {
      assert s.place[s.workers[n].id] == Held(n);
    }
  }

  lemma {:induction false} HeldByFirst(c: Config, s: State, n: nat)
    requires Conservation(c, s) && n <= |s.workers|
    ensures |HeldBelow(s, n)| == Sum(s.workers[..n], HoldingOf)
  {
    if n == 0 {
    } else {
      HeldByFirst(c, s, n - 1);
      HeldByOne(c, s, n - 1);
      assert s.workers[..n][..n - 1] == s.workers[..n - 1];
    }
  }

  lemma HeldByAll(c: Config, s: State)
    requires Conservation(c, s)
    ensures |HeldIds(s)| == Sum(s.workers, HoldingOf)
  {
    HeldByFirst(c, s, |s.workers|);
    assert s.workers[..|s.workers|] == s.workers;
    forall id | id in HeldIds(s) ensures id in HeldBelow(s, |s.workers|) {
      assert id in s.place && s.place[id].Held?;
    }
    assert HeldIds(s) == HeldBelow(s, |s.workers|);
  }

  lemma GoodEnds(s: State)
    ensures |HeldIds(s) + StoredIds(s)| == |HeldIds(s)| + |StoredIds(s)|
  {
    assert HeldIds(s) !! StoredIds(s);
  }

  lemma BadEnds(s: State)
    ensures |NowhereIds(s) + FailedIds(s)| == |NowhereIds(s)| + |FailedIds(s)|
  {
    assert NowhereIds(s) !! FailedIds(s);
  }

  lemma EveryPlace(s: State)
    ensures s.place.Keys == (HeldIds(s) + StoredIds(s)) + (NowhereIds(s) + FailedIds(s))
    ensures HeldIds(s) + StoredIds(s) !! NowhereIds(s) + FailedIds(s)
  {
    forall id | id in s.place
      ensures id in HeldIds(s) || id in StoredIds(s) || id in NowhereIds(s) || id in FailedIds(s)
    {
      assert s.place[id].Held? || s.place[id].Stored? || s.place[id].Nowhere? || s.place[id].Failed?;
    }
  }

  lemma PlacesPartition(s: State)
    ensures |s.place| == |HeldIds(s)| + |StoredIds(s)| + |NowhereIds(s)| + |FailedIds(s)|
  {
    GoodEnds(s);
    BadEnds(s);
    EveryPlace(s);
    assert |s.place| == |s.place.Keys|;
  }

  lemma DispatchedOrNot(c: Config, s: State)
    requires Conservation(c, s) && s.next >= 1
    ensures |c.MissingFrom(1)| == |c.MissingFrom(s.next)| + |s.place|
  {
    assert c.MissingFrom(1) == c.MissingFrom(s.next) + s.place.Keys;
    assert c.MissingFrom(s.next) !! s.place.Keys;
    assert |s.place| == |s.place.Keys|;
  }

  /**
   * The books balance in every reachable state: an id that was missing is not
   * yet dispatched, held by one worker, stored, nowhere to be found or failed,
   * and never in two of these.
   */
  lemma IdsBalance(c: Config, ctxDone: bool, acts: seq<Action>, s: State)
    requires c.concurrency >= 1 && Run(c, Init(c, ctxDone), acts, s)
    ensures |c.MissingFrom(1)| == |c.MissingFrom(s.next)| + Sum(s.workers, HoldingOf)
                                  + |StoredIds(s)| + |NowhereIds(s)| + |FailedIds(s)|
    ensures |FailedIds(s)| == |s.sent| + Sum(s.workers, SendingOf)
  {
    InitInv(c, ctxDone);
    RunInv(c, Init(c, ctxDone), acts, s);
    DispatchedOrNot(c, s);
    PlacesPartition(s);
    HeldByAll(c, s);
  }

  /** Between any two states of a run an id only moves from held to where it ends. */
  lemma {:induction false} PlacesAreFinal(c: Config, s: State, acts: seq<Action>, t: State, id: int)
    requires Inv(c, s) && Run(c, s, acts, t) && id in s.place
    ensures id in t.place && s.next <= t.next
    ensures !s.place[id].Held? ==> t.place[id] == s.place[id]
    ensures t.place[id].Held? ==> t.place[id] == s.place[id]
    decreases |acts|
  {
    if acts == [] {
    } else {
      var a := acts[0];
      StepInv(c, s, a);
      if !OfProducer(a) && !a.Dispatch? {
        WorkerSteps(c, s, a);
      }
      PlacesAreFinal(c, Next(c, s, a), acts[1..], t, id);
    }
  }

  function Dispatches(acts: seq<Action>): nat {
    if acts == [] then 0 else (if acts[0].Dispatch? then 1 else 0) + Dispatches(acts[1..])
  }

  function Sends(acts: seq<Action>): nat {
    if acts == [] then 0 else (if acts[0].Send? then 1 else 0) + Sends(acts[1..])
  }

  lemma WorkerCounts(c: Config, s: State, t: State, w: nat, p: Place)
    requires Conservation(c, s)
    requires Advances(s, t, w) || Settles(s, t, w, p) || Delivers(c, s, t, w) || Quits(s, t, w)
    ensures |t.place| == |s.place|
    ensures |t.sent| == |s.sent| + if s.workers[w].Sending? then 1 else 0
  {
    assert t.place.Keys == s.place.Keys;
    assert |t.place| == |t.place.Keys| && |s.place| == |s.place.Keys|;
  }

  lemma StepCounts(c: Config, s: State, a: Action)
    requires Inv(c, s) && Enabled(c, s, a)
    ensures |Next(c, s, a).place| == |s.place| + if a.Dispatch? then 1 else 0
    ensures |Next(c, s, a).sent| == |s.sent| + if a.Send? then 1 else 0
  {
    var t := Next(c, s, a);
    if OfProducer(a) {
      ProducerMoves(c, s, a);
    } else if a.Dispatch? {
      assert s.next !in s.place;
      assert t.place.Keys == s.place.Keys + {s.next};
      assert |t.place| == |t.place.Keys| && |s.place| == |s.place.Keys|;
    } else {
      WorkerSteps(c, s, a);
      WorkerCounts(c, s, t, a.w, EndOf(a));
    }
  }

  lemma {:induction false} RunCounts(c: Config, s: State, acts: seq<Action>, t: State)
    requires Inv(c, s) && Run(c, s, acts, t)
    ensures |t.place| == |s.place| + Dispatches(acts) && |t.sent| == |s.sent| + Sends(acts)
    decreases |acts|
  {
    if acts == [] {
    } else {
      StepInv(c, s, acts[0]);
      StepCounts(c, s, acts[0]);
      RunCounts(c, Next(c, s, acts[0]), acts[1..], t);
    }
  }

  /** How often `id` is handed to a worker in a run from `s`. */
  function DispatchesOf(c: Config, s: State, acts: seq<Action>, t: State, id: int): nat
    requires Run(c, s, acts, t)
    decreases |acts|
  {
    if acts == [] then 0
    else
      (if acts[0].Dispatch? && s.next == id then 1 else 0)
      + DispatchesOf(c, Next(c, s, acts[0]), acts[1..], t, id)
  }

  /** How often an error for `id` is put into errCh in a run from `s`. */
  function SendsOf(c: Config, s: State, acts: seq<Action>, t: State, id: int): nat
    requires Run(c, s, acts, t)
    decreases |acts|
  {
    if acts == [] then 0
    else
      (if acts[0].Send? && s.workers[acts[0].w].id == id then 1 else 0)
      + SendsOf(c, Next(c, s, acts[0]), acts[1..], t, id)
  }

  function SendingIdOf(id: int): Worker -> nat {
    (w: Worker) => if w.Sending? && w.id == id then 1 else 0
  }

  function FailedOnce(s: State, id: int): nat {
    if id in s.place && s.place[id].Failed? then 1 else 0
  }

  lemma SettleSendsOf(c: Config, s: State, t: State, w: nat, p: Place, id: int)
    requires Conservation(c, s) && Settles(s, t, w, p)
    ensures Sum(t.workers, SendingIdOf(id)) + FailedOnce(s, id) == Sum(s.workers, SendingIdOf(id)) + FailedOnce(t, id)
  {
    var u := s.workers[w];
    SumUpdate(s.workers, w, t.workers[w], SendingIdOf(id));
    assert s.place[u.id] == Held(w);
    assert t.place == s.place[u.id := p];
    assert SendingIdOf(id)(u) == 0;
    assert SendingIdOf(id)(t.workers[w]) == if p.Failed? && u.id == id then 1 else 0;
  }

  lemma FreeSendsOf(s: State, t: State, w: nat, id: int)
    requires w < |s.workers| == |t.workers| && t.place == s.place && !t.workers[w].Sending?
    requires t.workers == s.workers[w := t.workers[w]]
    ensures (if s.workers[w].Sending? && s.workers[w].id == id then 1 else 0)
            + Sum(t.workers, SendingIdOf(id)) + FailedOnce(s, id) == Sum(s.workers, SendingIdOf(id)) + FailedOnce(t, id)
  {
    SumUpdate(s.workers, w, t.workers[w], SendingIdOf(id));
  }

  lemma WorkerSendsOf(c: Config, s: State, t: State, w: nat, p: Place, id: int)
    requires Conservation(c, s)
    requires Advances(s, t, w) || Settles(s, t, w, p) || Delivers(c, s, t, w) || Quits(s, t, w)
    ensures (if s.workers[w].Sending? && s.workers[w].id == id then 1 else 0)
            + Sum(t.workers, SendingIdOf(id)) + FailedOnce(s, id) == Sum(s.workers, SendingIdOf(id)) + FailedOnce(t, id)
  {
    if Settles(s, t, w, p) {
      SettleSendsOf(c, s, t, w, p, id);
    } else {
      FreeSendsOf(s, t, w, id);
    }
  }

  /** Per id, a step keeps failures balanced with sends done and sends still to come. */
  lemma StepSendsOf(c: Config, s: State, a: Action, id: int)
    requires Inv(c, s) && Enabled(c, s, a)
    ensures (if a.Send? && s.workers[a.w].id == id then 1 else 0)
            + Sum(Next(c, s, a).workers, SendingIdOf(id)) + FailedOnce(s, id)
            == Sum(s.workers, SendingIdOf(id)) + FailedOnce(Next(c, s, a), id)
  {
    var t := Next(c, s, a);
    if OfProducer(a) {
      ProducerMoves(c, s, a);
    } else if a.Dispatch? {
      assert s.next !in s.place;
      SumUpdate(s.workers, a.w, t.workers[a.w], SendingIdOf(id));
    } else {
      WorkerSteps(c, s, a);
      WorkerSendsOf(c, s, t, a.w, EndOf(a), id);
    }
  }

  lemma {:induction false} RunSendsOf(c: Config, s: State, acts: seq<Action>, t: State, id: int)
    requires Inv(c, s) && Run(c, s, acts, t)
    ensures SendsOf(c, s, acts, t, id) + Sum(t.workers, SendingIdOf(id)) + FailedOnce(s, id)
            == Sum(s.workers, SendingIdOf(id)) + FailedOnce(t, id)
    decreases |acts|
  {
    if acts == [] {
    } else {
      StepInv(c, s, acts[0]);
      StepSendsOf(c, s, acts[0], id);
      RunSendsOf(c, Next(c, s, acts[0]), acts[1..], t, id);
    }
  }

  lemma StepDispatchesOf(c: Config, s: State, a: Action, id: int)
    requires Inv(c, s) && Enabled(c, s, a)
    ensures (if a.Dispatch? && s.next == id then 1 else 0) + (if id in s.place then 1 else 0)
            == if id in Next(c, s, a).place then 1 else 0
  {
    if OfProducer(a) {
      ProducerMoves(c, s, a);
    } else if a.Dispatch? {
      assert s.next !in s.place;
    } else {
      WorkerSteps(c, s, a);
    }
  }

  lemma {:induction false} RunDispatchesOf(c: Config, s: State, acts: seq<Action>, t: State, id: int)
    requires Inv(c, s) && Run(c, s, acts, t)
    ensures DispatchesOf(c, s, acts, t, id) + (if id in s.place then 1 else 0) == if id in t.place then 1 else 0
    decreases |acts|
  {
    if acts == [] {
    } else {
      StepInv(c, s, acts[0]);
      StepDispatchesOf(c, s, acts[0], id);
      RunDispatchesOf(c, Next(c, s, acts[0]), acts[1..], t, id);
    }
  }

  /**
   * For each id on its own: a missing id the producer has come to has been handed
   * out exactly once, any other never; a failed id has exactly one send, done or
   * still to come, any other none.
   */
  lemma EachIdOnce(c: Config, ctxDone: bool, acts: seq<Action>, s: State, id: int)
    requires c.concurrency >= 1 && Run(c, Init(c, ctxDone), acts, s)
    ensures DispatchesOf(c, Init(c, ctxDone), acts, s, id) == if 1 <= id < s.next && id !in c.start then 1 else 0
    ensures SendsOf(c, Init(c, ctxDone), acts, s, id) + Sum(s.workers, SendingIdOf(id))
            == if id in FailedIds(s) then 1 else 0
  {
    InitInv(c, ctxDone);
    RunInv(c, Init(c, ctxDone), acts, s);
    RunDispatchesOf(c, Init(c, ctxDone), acts, s, id);
    RunSendsOf(c, Init(c, ctxDone), acts, s, id);
    SumConstant(Init(c, ctxDone).workers, SendingIdOf(id), 0);
  }

  /** In total: as many dispatches as different dispatched ids, and no more sends than failed ids. */
  lemma WorkIsDoneOnce(c: Config, ctxDone: bool, acts: seq<Action>, s: State)
    requires c.concurrency >= 1 && Run(c, Init(c, ctxDone), acts, s)
    ensures Dispatches(acts) == |set id | 1 <= id < s.next && id !in c.start|
    ensures Sends(acts) <= |FailedIds(s)|
  {
    InitInv(c, ctxDone);
    RunInv(c, Init(c, ctxDone), acts, s);
    RunCounts(c, Init(c, ctxDone), acts, s);
    assert s.place.Keys == set id | 1 <= id < s.next && id !in c.start;
    assert |s.place| == |s.place.Keys|;
  }

  /** Id `id` is held by a worker that is past its context check. */
  predicate PastCheck(s: State, id: int) {
    && id in s.place && s.place[id].Held? && s.place[id].worker < |s.workers|
    && !s.workers[s.place[id].worker].Received?
  }

  lemma StepAfterCancel(c: Config, s: State, a: Action, id: int)
    requires Inv(c, s) && s.ctxDone && Enabled(c, s, a)
    ensures Next(c, s, a).ctxDone
    ensures PastCheck(Next(c, s, a), id) ==> PastCheck(s, id)
    ensures id in Next(c, s, a).place && (Next(c, s, a).place[id].Stored? || Next(c, s, a).place[id].Nowhere?) ==>
              PastCheck(s, id) || (id in s.place && s.place[id] == Next(c, s, a).place[id])
  {
    var t := Next(c, s, a);
    if OfProducer(a) {
      ProducerMoves(c, s, a);
    } else if !a.Dispatch? {
      WorkerSteps(c, s, a);
      if a.Check? {
        assert t.workers[a.w].Sending? && Settles(s, t, a.w, Failed(false));
      }
    }
  }

  lemma {:induction false} RunAfterCancel(c: Config, s: State, acts: seq<Action>, t: State, id: int)
    requires Inv(c, s) && s.ctxDone && Run(c, s, acts, t)
    requires id in t.place && (t.place[id].Stored? || t.place[id].Nowhere?)
    ensures PastCheck(s, id) || (id in s.place && s.place[id] == t.place[id])
    decreases |acts|
  {
    if acts == [] {
    } else {
      StepInv(c, s, acts[0]);
      StepAfterCancel(c, s, acts[0], id);
      RunAfterCancel(c, Next(c, s, acts[0]), acts[1..], t, id);
    }
  }

  lemma {:induction false} SumAtMost(ws: seq<Worker>)
    ensures Sum(ws, HoldingOf) <= |ws|
  {
    if ws == [] {
    } else {
      SumAtMost(ws[..|ws| - 1]);
    }
  }

  /** The worker may still be handed an id after the context is done. */
  function FreshOf(w: Worker): nat {
    if w.Received? || w.Exited? || (w.Sending? && w.exit) then 0 else 1
  }

  lemma LateCheck(c: Config, s: State, w: nat)
    requires s.ctxDone && Enabled(c, s, Check(w))
    ensures Next(c, s, Check(w)).workers == s.workers[w := Sending(s.workers[w].id, c.ctxErr, true)]
  {
  }

  lemma StepFresh(c: Config, s: State, a: Action)
    requires s.ctxDone && Enabled(c, s, a)
    ensures Next(c, s, a).ctxDone
    ensures Sum(Next(c, s, a).workers, FreshOf) + (if a.Dispatch? then 1 else 0) <= Sum(s.workers, FreshOf)
  {
    var t := Next(c, s, a);
    if OfProducer(a) {
      ProducerMoves(c, s, a);
    } else {
      if a.Check? {
        LateCheck(c, s, a.w);
      } else if !a.Dispatch? {
        WorkerSteps(c, s, a);
      }
      SumUpdate(s.workers, a.w, t.workers[a.w], FreshOf);
    }
  }

  lemma {:induction false} RunFresh(c: Config, s: State, acts: seq<Action>, t: State)
    requires s.ctxDone && Run(c, s, acts, t)
    ensures Dispatches(acts) + Sum(t.workers, FreshOf) <= Sum(s.workers, FreshOf)
    decreases |acts|
  {
    if acts == [] {
    } else {
      StepFresh(c, s, acts[0]);
      RunFresh(c, Next(c, s, acts[0]), acts[1..], t);
    }
  }

  lemma {:induction false} FreshAtMost(ws: seq<Worker>)
    ensures Sum(ws, FreshOf) <= |ws|
  {
    if ws == [] {
    } else {
      FreshAtMost(ws[..|ws| - 1]);
    }
  }

  lemma FewPastCheck(c: Config, s: State, ids: set<int>)
    requires Conservation(c, s) && |s.workers| == c.concurrency && forall id :: id in ids ==> PastCheck(s, id)
    ensures |ids| <= c.concurrency
  {
    forall id | id in ids ensures id in HeldIds(s) {
      assert PastCheck(s, id);
    }
    SubsetCardinality(ids, HeldIds(s));
    HeldByAll(c, s);
    SumAtMost(s.workers);
  }

  /**
   * Cancellation takes effect: once the context is done, each worker is handed at
   * most one more id, which it only reports as failed, and at most one more id per
   * worker is brought to a good end, and only ids already past the check.
   */
  lemma CancelStopsWork(c: Config, s: State, acts: seq<Action>, t: State)
    requires Inv(c, s) && s.ctxDone && Run(c, s, acts, t)
    ensures var more := (StoredIds(t) + NowhereIds(t)) - (StoredIds(s) + NowhereIds(s));
            |more| <= c.concurrency && forall id :: id in more ==> PastCheck(s, id)
    ensures Dispatches(acts) <= c.concurrency
  {
    RunFresh(c, s, acts, t);
    FreshAtMost(s.workers);
    var more := (StoredIds(t) + NowhereIds(t)) - (StoredIds(s) + NowhereIds(s));
    forall id | id in more ensures PastCheck(s, id) {
      RunAfterCancel(c, s, acts, t, id);
    }
    FewPastCheck(c, s, more);
  }
}
