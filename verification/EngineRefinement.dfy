/**
 * What an `Update` that returns nil has done to the table, compared with a
 * program that walks the ids one after the other.
 */
module EngineRefinement {
  import opened Common
  import opened Engine
  import opened EngineInvariant

  /** The comics site and the normaliser, when they answer. */
  datatype Source = Source(find: int -> Option<Info>, norm: string -> set<string>, last: int)

  /** A row without the order of its words, which `Norm` leaves open. */
  datatype Entry = Entry(url: string, words: set<string>)

  type View = map<int, Entry>

  function EntryOf(r: Row): Entry {
    Entry(r.url, ToSet(r.words))
  }

  function ViewOf(t: Table): View {
    map id | id in t :: EntryOf(t[id])
  }

  function Fetched(src: Source, info: Info): Entry {
    Entry(info.url, src.norm(info.description))
  }

  /** The comic published under an id carries that id. */
  ghost predicate Keyed(src: Source) {
    forall id :: src.find(id).Some? ==> src.find(id).value.id == id
  }

  /** The sequential program: one id after the other, nothing fails. */
  function Sequential(src: Source, v: View, last: int): View
    decreases if last > 0 then last else 0
  {
    if last <= 0 then v
    else
      var before := Sequential(src, v, last - 1);
      if last in v || src.find(last).None? then before
      else before[last := Fetched(src, src.find(last).value)]
  }

  lemma {:induction false} SequentialIs(src: Source, v: View, last: int)
    ensures var r := Sequential(src, v, last);
            && (forall id :: id in r <==> id in v || (1 <= id <= last && src.find(id).Some?))
            && (forall id :: id in r ==> r[id] == if id in v then v[id] else Fetched(src, src.find(id).value))
    decreases if last > 0 then last else 0
  {
    if last <= 0 {
    } else {
      SequentialIs(src, v, last - 1);
    }
  }

  /** Collaborators report the context's cancellation only after it has happened. */
  predicate Reportable(c: Config, s: State, e: Error) {
    e == Canceled ==> s.ctxDone && c.ctxErr == Canceled
  }

  predicate GoodWords(src: Source, info: Info, words: seq<string>) {
    NoDup(words) && ToSet(words) == src.norm(info.description)
  }

  /** The outside world may fail at any time, but does not make up answers. */
  predicate Honest(c: Config, src: Source, s: State, a: Action)
    requires Enabled(c, s, a)
  {
    match a
    case GetReturns(w, Ok(info)) => src.find(s.workers[w].id) == Some(info)
    case GetReturns(w, Err(e)) => (e == NotFound ==> src.find(s.workers[w].id).None?) && Reportable(c, s, e)
    case NormReturns(w, Ok(words)) => GoodWords(src, s.workers[w].info, words)
    case NormReturns(w, Err(e)) => Reportable(c, s, e)
    case AddReturns(w, Some(e), _) => Reportable(c, s, e)
    case _ => true
  }

  predicate HonestRun(c: Config, src: Source, s: State, acts: seq<Action>, t: State)
    decreases |acts|
  {
    if acts == [] then s == t
    else
      && Enabled(c, s, acts[0]) && Honest(c, src, s, acts[0])
      && HonestRun(c, src, Next(c, s, acts[0]), acts[1..], t)
  }

  lemma {:induction false} HonestRunConcat(c: Config, src: Source, s: State, p: seq<Action>, t: State,
                                           q: seq<Action>, u: State)
    requires HonestRun(c, src, s, p, t) && HonestRun(c, src, t, q, u)
    ensures HonestRun(c, src, s, p + q, u)
    decreases |p|
  {
    if p == [] {
      assert p + q == q;
    } else {
      HonestRunConcat(c, src, Next(c, s, p[0]), p[1..], t, q, u);
      assert (p + q)[0] == p[0] && (p + q)[1..] == p[1..] + q;
    }
  }

  predicate InTable(p: Place) {
    p.Stored? || (p.Failed? && p.stored)
  }

  predicate Faithful(src: Source, id: int, row: Row) {
    src.find(id).Some? && row.url == src.find(id).value.url && GoodWords(src, src.find(id).value, row.words)
  }

  ghost predicate TableSound(c: Config, src: Source, s: State) {
    && (forall id :: id in c.start ==> id in s.db && s.db[id] == c.start[id])
    && (forall id :: id in s.db && id !in c.start ==>
          id in s.place && InTable(s.place[id]) && Faithful(src, id, s.db[id]))
    && (forall id :: id in s.place && InTable(s.place[id]) ==> id in s.db)
    && (forall id :: id in s.place && s.place[id].Nowhere? ==> src.find(id).None?)
  }

  predicate WorkerSound(c: Config, src: Source, s: State, w: Worker) {
    && (w.Norming? || w.Adding? ==> src.find(w.id) == Some(w.info))
    && (w.Adding? ==> GoodWords(src, w.info, w.words))
    && (w.Sending? ==> Reportable(c, s, w.err))
  }

  ghost predicate Sound(c: Config, src: Source, s: State) {
    && TableSound(c, src, s)
    && (forall i :: 0 <= i < |s.workers| ==> WorkerSound(c, src, s, s.workers[i]))
    && (forall i :: 0 <= i < |s.sent| ==> Reportable(c, s, s.sent[i]))
    && (s.producer == Returned(None) && c.publisher.Broker? ==> s.sent == [])
  }

  lemma InitSound(c: Config, src: Source, ctxDone: bool)
    ensures Sound(c, src, Init(c, ctxDone))
  {
  }

  /** No Add ever meets its own key: the primary key is free until the row is inserted. */
  lemma KeyIsFree(c: Config, src: Source, s: State, w: nat)
    requires Keyed(src) && Conservation(c, s) && Sound(c, src, s)
    requires w < |s.workers| && Holding(s.workers[w])
    ensures s.workers[w].id !in s.db
    ensures s.workers[w].Adding? ==> s.workers[w].info.id == s.workers[w].id
  {
    var id := s.workers[w].id;
    assert s.place[id] == Held(w);
    assert WorkerSound(c, src, s, s.workers[w]);
  }

  lemma {:induction false} AllCanceled(sent: seq<Error>)
    ensures FirstReal(sent) == None <==> forall i :: 0 <= i < |sent| ==> sent[i] == Canceled
  {
    if sent == [] {
    } else {
      AllCanceled(sent[1..]);
      assert forall i :: 0 < i < |sent| ==> sent[i] == sent[1..][i - 1];
    }
  }

  /** Only the context, the producer and the channel differ. */
  lemma SameTable(c: Config, src: Source, s: State, t: State)
    requires Sound(c, src, s) && t.db == s.db && t.place == s.place && t.workers == s.workers && t.sent == s.sent
    requires s.ctxDone ==> t.ctxDone
    requires t.producer == Returned(None) && c.publisher.Broker? ==> t.sent == []
    ensures Sound(c, src, t)
  {
    forall i | 0 <= i < |s.workers| ensures WorkerSound(c, src, t, t.workers[i]) {
      assert WorkerSound(c, src, s, s.workers[i]);
    }
  }

  lemma NilOfBroker(c: Config, src: Source, s: State, a: Action)
    requires Inv(c, s) && Sound(c, src, s) && Enabled(c, s, a) && OfProducer(a)
    requires Next(c, s, a).producer == Returned(None) && c.publisher.Broker?
    ensures s.sent == []
  {
    if a.Publish? {
      SkippedErrors(c, src, s);
    }
  }

  lemma ProducerSound(c: Config, src: Source, s: State, a: Action)
    requires Inv(c, s) && Sound(c, src, s) && Enabled(c, s, a) && OfProducer(a)
    ensures Sound(c, src, Next(c, s, a))
  {
    var t := Next(c, s, a);
    ProducerMoves(c, s, a);
    if t.producer == Returned(None) && c.publisher.Broker? {
      NilOfBroker(c, src, s, a);
    }
    SameTable(c, src, s, t);
  }

  lemma DispatchSound(c: Config, src: Source, s: State, w: nat)
    requires Inv(c, s) && Sound(c, src, s) && Enabled(c, s, Dispatch(w))
    ensures Sound(c, src, Next(c, s, Dispatch(w)))
  {
    assert s.next !in s.place;
    var t := Next(c, s, Dispatch(w));
    forall i | 0 <= i < |s.workers| ensures WorkerSound(c, src, t, t.workers[i]) {
      assert WorkerSound(c, src, s, s.workers[i]);
    }
  }

  /** Nothing but `w` itself and the list of sent errors is different for the workers. */
  lemma WorkersSound(c: Config, src: Source, s: State, t: State, w: nat)
    requires Sound(c, src, s) && w < |s.workers| == |t.workers|
    requires t.workers == s.workers[w := t.workers[w]] && t.ctxDone == s.ctxDone
    requires WorkerSound(c, src, t, t.workers[w])
    ensures forall i :: 0 <= i < |t.workers| ==> WorkerSound(c, src, t, t.workers[i])
  {
    forall i | 0 <= i < |t.workers| ensures WorkerSound(c, src, t, t.workers[i]) {
      assert WorkerSound(c, src, s, s.workers[i]);
    }
  }

  lemma CheckSound(c: Config, src: Source, s: State, w: nat, t: State)
    requires Enabled(c, s, Check(w)) && t == Next(c, s, Check(w))
    ensures w < |t.workers| && WorkerSound(c, src, t, t.workers[w])
  {
    var u := t.workers[w];
    assert u == if s.ctxDone then Sending(s.workers[w].id, c.ctxErr, true) else Getting(s.workers[w].id);
  }

  lemma GetSound(c: Config, src: Source, s: State, a: Action, t: State)
    requires Enabled(c, s, a) && a.GetReturns? && Honest(c, src, s, a) && t == Next(c, s, a)
    ensures a.w < |t.workers| && WorkerSound(c, src, t, t.workers[a.w])
  {
    var u := t.workers[a.w];
    assert t.ctxDone == s.ctxDone;
  }

  lemma NormSound(c: Config, src: Source, s: State, a: Action, t: State)
    requires Enabled(c, s, a) && a.NormReturns? && Honest(c, src, s, a) && t == Next(c, s, a)
    requires WorkerSound(c, src, s, s.workers[a.w])
    ensures a.w < |t.workers| && WorkerSound(c, src, t, t.workers[a.w])
  {
    var u := t.workers[a.w];
    assert t.ctxDone == s.ctxDone;
  }

  lemma AddSound(c: Config, src: Source, s: State, a: Action, t: State)
    requires Enabled(c, s, a) && a.AddReturns? && Honest(c, src, s, a) && t == Next(c, s, a)
    ensures a.w < |t.workers| && WorkerSound(c, src, t, t.workers[a.w])
  {
    var u := t.workers[a.w];
    assert t.ctxDone == s.ctxDone;
  }

  lemma MovedWorkerSound(c: Config, src: Source, s: State, a: Action, t: State)
    requires Sound(c, src, s) && Enabled(c, s, a) && Honest(c, src, s, a) && !OfProducer(a) && !a.Dispatch?
    requires t == Next(c, s, a)
    ensures a.w < |t.workers| && WorkerSound(c, src, t, t.workers[a.w])
  {
    assert WorkerSound(c, src, s, s.workers[a.w]);
    if a.Check? {
      CheckSound(c, src, s, a.w, t);
    } else if a.GetReturns? {
      GetSound(c, src, s, a, t);
    } else if a.NormReturns? {
      NormSound(c, src, s, a, t);
    } else if a.AddReturns? {
      AddSound(c, src, s, a, t);
    } else {
      assert t.workers[a.w].Idle? || t.workers[a.w].Exited?;
    }
  }

  lemma InsertedTable(c: Config, src: Source, s: State, t: State, w: nat, p: Place, row: Row)
    requires Conservation(c, s) && TableSound(c, src, s) && Settles(s, t, w, p) && InTable(p)
    requires s.workers[w].id !in s.db && Faithful(src, s.workers[w].id, row)
    requires t.db == s.db[s.workers[w].id := row]
    ensures TableSound(c, src, t)
  {
    assert s.place[s.workers[w].id] == Held(w);
  }

  lemma AddedTable(c: Config, src: Source, s: State, a: Action)
    requires Keyed(src) && Inv(c, s) && Sound(c, src, s)
    requires Enabled(c, s, a) && a.AddReturns?
    ensures TableSound(c, src, Next(c, s, a))
  {
    var u, t := s.workers[a.w], Next(c, s, a);
    KeyIsFree(c, src, s, a.w);
    assert WorkerSound(c, src, s, u);
    AddSettles(c, s, a);
    if a.stored {
      InsertedTable(c, src, s, t, a.w, EndOf(a), Row(u.info.url, u.words));
    } else {
      SettledTable(c, src, s, t, a.w, EndOf(a));
    }
  }

  lemma SettledTable(c: Config, src: Source, s: State, t: State, w: nat, p: Place)
    requires Conservation(c, s) && TableSound(c, src, s) && Settles(s, t, w, p) && t.db == s.db
    requires !InTable(p) && (p.Nowhere? ==> src.find(s.workers[w].id).None?)
    ensures TableSound(c, src, t)
  {
    assert s.place[s.workers[w].id] == Held(w);
  }

  lemma OtherTable(c: Config, src: Source, s: State, a: Action)
    requires Inv(c, s) && Sound(c, src, s)
    requires Enabled(c, s, a) && Honest(c, src, s, a)
    requires !OfProducer(a) && !a.Dispatch? && !a.AddReturns?
    ensures TableSound(c, src, Next(c, s, a))
  {
    var t := Next(c, s, a);
    WorkerSteps(c, s, a);
    if Settles(s, t, a.w, EndOf(a)) {
      SettledTable(c, src, s, t, a.w, EndOf(a));
    }
  }

  lemma WorkerStepSound(c: Config, src: Source, s: State, t: State, w: nat, p: Place)
    requires Inv(c, s) && Sound(c, src, s) && TableSound(c, src, t)
    requires Advances(s, t, w) || Settles(s, t, w, p) || Delivers(c, s, t, w) || Quits(s, t, w)
    requires WorkerSound(c, src, t, t.workers[w])
    ensures Sound(c, src, t)
  {
    assert WorkerSound(c, src, s, s.workers[w]);
    assert !s.workers[w].Exited?;
    WorkersSound(c, src, s, t, w);
  }

  lemma StepSound(c: Config, src: Source, s: State, a: Action)
    requires Keyed(src) && Inv(c, s) && Sound(c, src, s)
    requires Enabled(c, s, a) && Honest(c, src, s, a)
    ensures Sound(c, src, Next(c, s, a))
  {
    if OfProducer(a) {
      ProducerSound(c, src, s, a);
    } else if a.Dispatch? {
      DispatchSound(c, src, s, a.w);
    } else {
      if a.AddReturns? { AddedTable(c, src, s, a); } else { OtherTable(c, src, s, a); }
      var t := Next(c, s, a);
      MovedWorkerSound(c, src, s, a, t);
      WorkerSteps(c, s, a);
      WorkerStepSound(c, src, s, t, a.w, EndOf(a));
    }
  }

  lemma {:induction false} HonestRunSound(c: Config, src: Source, s: State, acts: seq<Action>, t: State)
    requires Keyed(src) && Inv(c, s) && Sound(c, src, s) && HonestRun(c, src, s, acts, t)
    ensures Inv(c, t) && Sound(c, src, t) && Run(c, s, acts, t)
    decreases |acts|
  {
    if acts == [] {
    } else {
      StepInv(c, s, acts[0]);
      StepSound(c, src, s, acts[0]);
      HonestRunSound(c, src, Next(c, s, acts[0]), acts[1..], t);
    }
  }

  /** `v` extends `v0` by comics that an update from `v0` would add. */
  ghost predicate Between(src: Source, last: int, v0: View, v: View) {
    && (forall id :: id in v0 ==> id in v && v[id] == v0[id])
    && (forall id :: id in v && id !in v0 ==>
          1 <= id <= last && src.find(id).Some? && v[id] == Fetched(src, src.find(id).value))
  }

  /** However far a call gets, what it adds is right. */
  lemma PartialUpdate(c: Config, src: Source, s: State)
    requires Inv(c, s) && Sound(c, src, s)
    ensures Between(src, c.lastID, ViewOf(c.start), ViewOf(s.db))
  {
    forall id | id in s.db && id !in c.start
      ensures 1 <= id <= c.lastID && ViewOf(s.db)[id] == Fetched(src, src.find(id).value)
    {
      assert id in s.place;
    }
  }

  /** From any partial result, finishing the job gives what doing it in one go gives. */
  lemma FinishFromPartial(src: Source, last: int, v0: View, v: View)
    requires Between(src, last, v0, v)
    ensures Sequential(src, v, last) == Sequential(src, v0, last)
  {
    SequentialIs(src, v, last);
    SequentialIs(src, v0, last);
    var r, r0 := Sequential(src, v, last), Sequential(src, v0, last);
    assert forall id :: id in r <==> id in r0;
    assert forall id :: id in r ==> r[id] == r0[id];
  }

  /** With every comic that exists in the table, the table is the finished one. */
  lemma NothingMissing(c: Config, src: Source, s: State)
    requires Inv(c, s) && Sound(c, src, s)
    requires forall id :: c.Missing(id) && src.find(id).Some? ==> id in s.db
    ensures ViewOf(s.db) == Sequential(src, ViewOf(c.start), c.lastID)
  {
    var v := ViewOf(c.start);
    SequentialIs(src, v, c.lastID);
    PartialUpdate(c, src, s);
    var r, w := ViewOf(s.db), Sequential(src, v, c.lastID);
    assert forall id :: id in r <==> id in w;
    assert forall id :: id in r ==> r[id] == w[id];
  }

  /** When a call has returned nil, every missing id has been dispatched and has come to an end. */
  lemma NilEnds(c: Config, src: Source, s: State, id: int)
    requires Inv(c, s) && Sound(c, src, s) && s.producer == Returned(None)
    requires c.Missing(id) && src.find(id).Some?
    ensures id in s.place && (id in s.db || s.place[id] == Failed(false))
  {
    assert id in s.place;
    assert !s.place[id].Held?;
  }

  /** A call that returns nil with nothing reported on errCh has added everything. */
  lemma CleanNil(c: Config, src: Source, s: State)
    requires Inv(c, s) && Sound(c, src, s)
    requires s.producer == Returned(None) && s.sent == []
    ensures ViewOf(s.db) == Sequential(src, ViewOf(c.start), c.lastID)
  {
    SumZero(s.workers, SendingOf);
    assert FailedIds(s) == {};
    forall id | c.Missing(id) && src.find(id).Some?
      ensures id in s.db
    {
      NilEnds(c, src, s, id);
      assert id !in FailedIds(s);
    }
    NothingMissing(c, src, s);
  }

  /** Errors that the final loop skips mean a cancelled context. */
  lemma SkippedErrors(c: Config, src: Source, s: State)
    requires Sound(c, src, s) && FirstReal(s.sent) == None
    ensures s.sent == [] || (s.ctxDone && c.ctxErr == Canceled)
  {
    AllCanceled(s.sent);
    if s.sent != [] {
      assert Reportable(c, s, s.sent[0]);
    }
  }

  /**
   * Refinement.  If `Update` returns nil, and either the publisher refuses to
   * work under a done context or the context cannot end in Canceled, then the
   * table is the one the sequential program leaves: for every schedule, every
   * number of workers and every moment of cancellation.
   */
  lemma NilIsSequential(c: Config, src: Source, ctxDone: bool, acts: seq<Action>, t: State)
    requires Keyed(src) && c.concurrency >= 1
    requires c.publisher.Broker? || c.ctxErr != Canceled
    requires HonestRun(c, src, Init(c, ctxDone), acts, t) && t.producer == Returned(None)
    ensures ViewOf(t.db) == Sequential(src, ViewOf(c.start), c.lastID)
  {
    InitInv(c, ctxDone);
    InitSound(c, src, ctxDone);
    HonestRunSound(c, src, Init(c, ctxDone), acts, t);
    SkippedErrors(c, src, t);
    CleanNil(c, src, t);
  }

  /** Confluence: two successful calls from the same table agree, whatever their schedules. */
  lemma SchedulesAgree(c: Config, d: Config, src: Source, x: bool, y: bool,
                       p: seq<Action>, q: seq<Action>, s: State, t: State)
    requires Keyed(src) && c.concurrency >= 1 && d.concurrency >= 1
    requires c.publisher.Broker? || c.ctxErr != Canceled
    requires d.publisher.Broker? || d.ctxErr != Canceled
    requires c.start == d.start && c.lastID == d.lastID
    requires HonestRun(c, src, Init(c, x), p, s) && s.producer == Returned(None)
    requires HonestRun(d, src, Init(d, y), q, t) && t.producer == Returned(None)
    ensures ViewOf(s.db) == ViewOf(t.db)
  {
    NilIsSequential(c, src, x, p, s);
    NilIsSequential(d, src, y, q, t);
  }

  /** With everything in place a further call finds nothing to insert. */
  lemma NothingToAdd(c: Config, src: Source, s: State)
    requires Inv(c, s) && Sound(c, src, s)
    requires forall id :: c.Missing(id) ==> src.find(id).None?
    ensures s.db == c.start
    ensures forall i :: 0 <= i < |s.workers| ==> !s.workers[i].Norming? && !s.workers[i].Adding?
  {
    forall i | 0 <= i < |s.workers| && (s.workers[i].Norming? || s.workers[i].Adding?)
      ensures false
    {
      assert WorkerSound(c, src, s, s.workers[i]);
      assert c.Missing(s.workers[i].id);
    }
    forall id | id in s.db
      ensures id in c.start
    {
      assert id !in c.start ==> id in s.place && c.Missing(id);
    }
    assert forall id :: id in s.db <==> id in c.start;
    assert forall id :: id in s.db ==> s.db[id] == c.start[id];
  }
}
