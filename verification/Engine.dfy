/**
 * One call of `Update`, from the creation of its channels to its return, as a
 * transition system.  The producer and the workers are goroutines; an action is
 * one step of one of them, and everything the outside world decides (which
 * goroutine moves, which arm of a ready `select` is taken, what Get, Norm, Add
 * and Publish return, when the context ends) is part of the action.
 */
module Engine {
  import opened Common

  datatype Info = Info(id: int, url: string, description: string)

  datatype Row = Row(url: string, words: seq<string>)

  type Table = map<int, Row>

  /** No publisher, one that refuses to publish once the context is done, or any other. */
  datatype Publisher = NoPublisher | Broker | OtherPublisher

  /** What is fixed before the first goroutine starts; `start` is the table `IDs` has read. */
  datatype Config = Config(
    concurrency: nat,
    lastID: int,
    start: Table,
    ctxErr: Error,
    publisher: Publisher)
  {
    predicate Missing(id: int) {
      1 <= id <= lastID && id !in start
    }

    function MissingFrom(next: int): set<int> {
      set id | next <= id <= lastID && Missing(id)
    }
  }

  datatype Worker =
    | Idle                                              // receiving from idsCh
    | Received(id: int)                                 // at the context check
    | Getting(id: int)                                  // inside Get
    | Norming(id: int, info: Info)                      // inside Norm
    | Adding(id: int, info: Info, words: seq<string>)   // inside Add
    | Sending(id: int, err: Error, exit: bool)          // at `errCh <-`
    | Exited                                            // wg.Done has run

  datatype Producer =
    | Feeding                     // in the loop over ids
    | AbortJoin                   // cancelled: at the early wg.Wait
    | Join                        // at the final wg.Wait
    | Draining                    // reading the closed errCh
    | Publishing                  // inside Publish
    | Returned(err: Option<Error>)

  /** Where a dispatched id is. A failed Add may still have reached the table. */
  datatype Place =
    | Held(worker: nat)
    | Stored
    | Nowhere
    | Failed(stored: bool)

  datatype State = State(
    producer: Producer,
    next: int,                    // loop variable of the producer
    workers: seq<Worker>,
    idsClosed: bool,
    errs: seq<Error>,             // content of errCh
    errClosed: bool,
    wg: int,
    ctxDone: bool,
    db: Table,
    place: map<int, Place>,       // history: where each dispatched id went
    sent: seq<Error>)             // history: everything ever put into errCh

  datatype Action =
    | CancelContext
    | Skip
    | Dispatch(w: nat)
    | Abort
    | CloseIds
    | JoinAbort
    | JoinAll
    | Drain
    | Publish(result: Option<Error>)
    | Check(w: nat)
    | GetReturns(w: nat, got: Result<Info>)
    | NormReturns(w: nat, normed: Result<seq<string>>)
    | AddReturns(w: nat, added: Option<Error>, stored: bool)
    | Send(w: nat)
    | Leave(w: nat)

  function Init(c: Config, ctxDone: bool): State {
    State(Feeding, 1, seq(c.concurrency, _ => Idle), false, [], false, c.concurrency, ctxDone,
          c.start, map[], [])
  }

  predicate Enabled(c: Config, s: State, a: Action) {
    match a
    case CancelContext => !s.ctxDone
    case Skip => s.producer.Feeding? && s.next <= c.lastID && s.next in c.start
    case Dispatch(w) =>
      && s.producer.Feeding? && s.next <= c.lastID && s.next !in c.start
      && w < |s.workers| && s.workers[w].Idle?
    case Abort =>
      s.producer.Feeding? && s.next <= c.lastID && s.next !in c.start && s.ctxDone
    case CloseIds => s.producer.Feeding? && c.lastID < s.next
    case JoinAbort => s.producer.AbortJoin? && s.wg == 0
    case JoinAll => s.producer.Join? && s.wg == 0
    case Drain => s.producer.Draining?
    case Publish(r) =>
      s.producer.Publishing? && (c.publisher.Broker? && s.ctxDone ==> r == Some(c.ctxErr))
    case Check(w) => w < |s.workers| && s.workers[w].Received?
    case GetReturns(w, _) => w < |s.workers| && s.workers[w].Getting?
    case NormReturns(w, _) => w < |s.workers| && s.workers[w].Norming?
    case AddReturns(w, r, stored) =>
      && w < |s.workers| && s.workers[w].Adding?
      && (r.None? ==> stored)
      && (stored ==> s.workers[w].info.id !in s.db)     // primary key
    case Send(w) => w < |s.workers| && s.workers[w].Sending? && |s.errs| < c.concurrency
    case Leave(w) => w < |s.workers| && s.workers[w].Idle? && s.idsClosed
  }

  function Move(s: State, w: nat, to: Worker): State
    requires w < |s.workers|
  {
    s.(workers := s.workers[w := to])
  }

  /** The worker is done with `id` and goes back to receiving. */
  function Finish(s: State, w: nat, id: int, at: Place): State
    requires w < |s.workers|
  {
    Move(s, w, Idle).(place := s.place[id := at])
  }

  /** The worker has an error for `id` and is about to send it. */
  function Fail(s: State, w: nat, id: int, err: Error, exit: bool, stored: bool): State
    requires w < |s.workers|
  {
    Move(s, w, Sending(id, err, exit)).(place := s.place[id := Failed(stored)])
  }

  function Next(c: Config, s: State, a: Action): State
    requires Enabled(c, s, a)
  {
    match a
    case CancelContext => s.(ctxDone := true)
    case Skip => s.(next := s.next + 1)
    case Dispatch(w) =>
      Move(s, w, Received(s.next)).(next := s.next + 1, place := s.place[s.next := Held(w)])
    case Abort => s.(idsClosed := true, producer := AbortJoin)
    case CloseIds => s.(idsClosed := true, producer := Join)
    case JoinAbort => s.(errClosed := true, producer := Returned(Some(c.ctxErr)))
    case JoinAll => s.(errClosed := true, producer := Draining)
    case Drain =>
      if s.errs == [] then
        s.(producer := if c.publisher.NoPublisher? then Returned(None) else Publishing)
      else if s.errs[0] != Canceled then
        s.(errs := s.errs[1..], producer := Returned(Some(s.errs[0])))
      else
        s.(errs := s.errs[1..])
    case Publish(r) => s.(producer := Returned(r))
    case Check(w) =>
      var id := s.workers[w].id;
      if s.ctxDone then Fail(s, w, id, c.ctxErr, true, false) else Move(s, w, Getting(id))
    case GetReturns(w, r) =>
      var id := s.workers[w].id;
      (match r
       case Ok(info) => Move(s, w, Norming(id, info))
       case Err(e) => if e == NotFound then Finish(s, w, id, Nowhere) else Fail(s, w, id, e, false, false))
    case NormReturns(w, r) =>
      var id, info := s.workers[w].id, s.workers[w].info;
      (match r
       case Ok(words) => Move(s, w, Adding(id, info, words))
       case Err(e) => Fail(s, w, id, e, false, false))
    case AddReturns(w, r, stored) =>
      var id, info := s.workers[w].id, s.workers[w].info;
      var t := if stored then s.(db := s.db[info.id := Row(info.url, s.workers[w].words)]) else s;
      (match r
       case None => Finish(t, w, id, Stored)
       case Some(e) => Fail(t, w, id, e, false, stored))
    case Send(w) =>
      var e, exit := s.workers[w].err, s.workers[w].exit;
      Move(s, w, if exit then Exited else Idle).(
        errs := s.errs + [e], sent := s.sent + [e], wg := if exit then s.wg - 1 else s.wg)
    case Leave(w) => Move(s, w, Exited).(wg := s.wg - 1)
  }

  /** `acts`, one after the other, lead from `s` to `t`. */
  predicate Run(c: Config, s: State, acts: seq<Action>, t: State)
    decreases |acts|
  {
    if acts == [] then s == t
    else Enabled(c, s, acts[0]) && Run(c, Next(c, s, acts[0]), acts[1..], t)
  }

  /** No goroutine can move; only the context may still be cancelled. */
  ghost predicate Stuck(c: Config, s: State) {
    forall a :: Enabled(c, s, a) ==> a.CancelContext?
  }
}
