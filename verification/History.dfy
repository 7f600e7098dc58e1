/**
 * Whole histories of the service: any number of `Update` and `Drop` calls, in
 * flight at the same time, over one gate, one table and one event stream.
 */
module History {
  import opened Common
  import opened Engine
  import opened EngineInvariant
  import EngineTermination
  import opened Gate

  datatype Kind = Update | Drop

  datatype Call =
    | Invoked(kind: Kind)                   // not yet at the gate
    | ReadingLast                           // inside LastID
    | ReadingIDs(lastID: int)               // inside IDs
    | Updating(cfg: Config, st: State)
    | Truncating                            // inside db.Drop
    | Announcing                            // publishing "dropped"
    | Leaving(err: Option<Error>)           // setStatusIdle is due
    | Done(err: Option<Error>)

  /** A published event, with the table at the moment it was published. */
  datatype Event =
    | Updated(call: nat, table: Table)
    | Dropped(call: nat, table: Table)

  datatype System = System(
    concurrency: nat,
    publisher: Publisher,
    status: Status,
    calls: seq<Call>,
    db: Table,
    log: seq<Event>,
    kinds: seq<Kind>,         // history: what each call was invoked as
    holder: Option<nat>)      // history: the call that passed the gate last and has not left

  datatype Act =
    | Invoke(kind: Kind)
    | Enter(k: nat)
    | LastIDReturns(k: nat, last: Result<int>)
    | IDsReturns(k: nat, failed: Option<Error>, ctxDone: bool, ctxErr: Error)
    | Step(k: nat, act: Action)
    | TruncateReturns(k: nat, failed: Option<Error>, done: bool)
    | AnnounceReturns(k: nat, failed: Option<Error>)
    | Exit(k: nat)

  function Start(concurrency: nat, publisher: Publisher, db: Table): System {
    System(concurrency, publisher, StatusIdle, [], db, [], [], None)
  }

  /** The call's own state together with the table all calls share. */
  function Loaded(h: System, k: nat): State
    requires k < |h.calls| && h.calls[k].Updating?
  {
    h.calls[k].st.(db := h.db)
  }

  predicate CanAct(h: System, a: Act) {
    match a
    case Invoke(_) => true
    case Enter(k) => k < |h.calls| && h.calls[k].Invoked?
    case LastIDReturns(k, _) => k < |h.calls| && h.calls[k].ReadingLast?
    case IDsReturns(k, _, _, _) => k < |h.calls| && h.calls[k].ReadingIDs?
    case Step(k, act) => k < |h.calls| && h.calls[k].Updating? && Enabled(h.calls[k].cfg, Loaded(h, k), act)
    case TruncateReturns(k, e, done) => k < |h.calls| && h.calls[k].Truncating? && (e.None? ==> done)
    case AnnounceReturns(k, _) => k < |h.calls| && h.calls[k].Announcing?
    case Exit(k) =>
      k < |h.calls| && (h.calls[k].Leaving? || (h.calls[k].Updating? && h.calls[k].st.producer.Returned?))
  }

  function SetCall(h: System, k: nat, c: Call): System
    requires k < |h.calls|
  {
    h.(calls := h.calls[k := c])
  }

  function After(h: System, a: Act): System
    requires CanAct(h, a)
  {
    match a
    case Invoke(kind) => h.(calls := h.calls + [Invoked(kind)], kinds := h.kinds + [kind])
    case Enter(k) =>
      var (status, entered) := TryEnter(h.status);
      if entered then
        SetCall(h, k, if h.calls[k].kind.Update? then ReadingLast else Truncating).(status := status, holder := Some(k))
      else
        SetCall(h, k, Done(Some(AlreadyExists))).(status := status)
    case LastIDReturns(k, r) =>
      SetCall(h, k, if r.Ok? then ReadingIDs(r.value) else Leaving(Some(r.error)))
    case IDsReturns(k, e, ctxDone, ctxErr) =>
      if e.Some? then SetCall(h, k, Leaving(e))
      else
        var cfg := Config(h.concurrency, h.calls[k].lastID, h.db, ctxErr, h.publisher);
        SetCall(h, k, Updating(cfg, Init(cfg, ctxDone)))
    case Step(k, act) =>
      var st := Next(h.calls[k].cfg, Loaded(h, k), act);
      SetCall(h, k, Updating(h.calls[k].cfg, st)).(
        db := st.db, log := if act == Publish(None) then h.log + [Updated(k, h.db)] else h.log)
    case TruncateReturns(k, e, done) =>
      SetCall(h, k, if e.Some? || h.publisher.NoPublisher? then Leaving(e) else Announcing).(
        db := if done then map[] else h.db)
    case AnnounceReturns(k, e) =>
      SetCall(h, k, Leaving(e)).(log := if e.None? then h.log + [Dropped(k, h.db)] else h.log)
    case Exit(k) =>
      var err := if h.calls[k].Leaving? then h.calls[k].err else h.calls[k].st.producer.err;
      SetCall(h, k, Done(err)).(status := StatusIdle, holder := None)
  }

  predicate Past(h: System, acts: seq<Act>, h': System)
    decreases |acts|
  {
    if acts == [] then h == h'
    else CanAct(h, acts[0]) && Past(After(h, acts[0]), acts[1..], h')
  }

  /** The system before the last act of a history. */
  lemma {:induction false} PastLast(h: System, acts: seq<Act>, g: System) returns (m: System)
    requires acts != [] && Past(h, acts, g)
    ensures Past(h, acts[..|acts| - 1], m)
    ensures CanAct(m, acts[|acts| - 1]) && g == After(m, acts[|acts| - 1])
    decreases |acts|
  {
    if |acts| == 1 {
      m := h;
    } else {
      m := PastLast(After(h, acts[0]), acts[1..], g);
      assert acts[..|acts| - 1][1..] == acts[1..][..|acts[1..]| - 1];
    }
  }

  /** Past the gate and not yet back. */
  predicate Holds(c: Call) {
    !c.Invoked? && !c.Done?
  }

  ghost predicate GateOk(h: System) {
    && (forall k :: 0 <= k < |h.calls| ==> (Holds(h.calls[k]) <==> h.holder == Some(k)))
    && (h.holder.Some? ==> h.holder.value < |h.calls|)
    && (h.status == StatusRunning <==> h.holder.Some?)
  }

  ghost predicate CallsOk(h: System) {
    && h.concurrency >= 1
    && (forall k :: 0 <= k < |h.calls| && h.calls[k].Updating? ==>
          && h.calls[k].cfg.concurrency == h.concurrency && h.calls[k].cfg.publisher == h.publisher
          && Inv(h.calls[k].cfg, h.calls[k].st)
          && h.calls[k].st.db == h.db)
    && (forall k :: 0 <= k < |h.calls| && h.calls[k].Announcing? ==> h.db == map[])
  }

  /** The call has nothing left to publish. */
  predicate HasPublished(c: Call) {
    c.Leaving? || c.Done? || (c.Updating? && c.st.producer.Returned?)
  }

  ghost predicate LogOk(h: System) {
    && (forall i :: 0 <= i < |h.log| ==> h.log[i].call < |h.calls| && HasPublished(h.calls[h.log[i].call]))
    && (forall i, j :: 0 <= i < j < |h.log| ==> h.log[i].call != h.log[j].call)
    && (forall i :: 0 <= i < |h.log| && h.log[i].Dropped? ==> h.log[i].table == map[])
  }

  /** A call does what it was invoked for. */
  predicate Does(c: Call, kind: Kind) {
    && (c.Invoked? ==> c.kind == kind)
    && (c.ReadingLast? || c.ReadingIDs? || c.Updating? ==> kind.Update?)
    && (c.Truncating? || c.Announcing? ==> kind.Drop?)
  }

  ghost predicate KindsOk(h: System) {
    && |h.kinds| == |h.calls|
    && (forall k :: 0 <= k < |h.calls| ==> Does(h.calls[k], h.kinds[k]))
    && (forall i :: 0 <= i < |h.log| ==>
          h.log[i].call < |h.kinds| && (h.log[i].Updated? <==> h.kinds[h.log[i].call].Update?))
  }

  ghost predicate Sane(h: System) {
    GateOk(h) && CallsOk(h) && LogOk(h) && KindsOk(h)
  }

  lemma StepKeepsGate(h: System, a: Act)
    requires GateOk(h) && CanAct(h, a)
    ensures GateOk(After(h, a))
  {
  }

  /** While a call is past the gate, every other one is outside. */
  lemma OthersOutside(h: System, k: nat, j: nat)
    requires GateOk(h) && k < |h.calls| && j < |h.calls| && j != k && Holds(h.calls[k])
    ensures !Holds(h.calls[j])
  {
  }

  lemma EngineStepKeepsCalls(h: System, k: nat, act: Action)
    requires GateOk(h) && CallsOk(h) && CanAct(h, Step(k, act))
    ensures CallsOk(After(h, Step(k, act)))
  {
    var g := After(h, Step(k, act));
    assert Loaded(h, k) == h.calls[k].st;
    StepInv(h.calls[k].cfg, Loaded(h, k), act);
    forall j | 0 <= j < |g.calls| && j != k ensures g.calls[j] == h.calls[j] && !Holds(g.calls[j]) {
      OthersOutside(h, k, j);
    }
  }

  lemma OtherStepKeepsCalls(h: System, a: Act)
    requires GateOk(h) && CallsOk(h) && CanAct(h, a) && !a.Step?
    ensures CallsOk(After(h, a))
  {
    var g := After(h, a);
    if a.IDsReturns? && a.failed.None? {
      InitInv(g.calls[a.k].cfg, a.ctxDone);
    }
    if a.TruncateReturns? {
      forall j | 0 <= j < |g.calls| && j != a.k ensures g.calls[j] == h.calls[j] && !Holds(g.calls[j]) {
        OthersOutside(h, a.k, j);
      }
    }
  }

  lemma StepKeepsPublished(c: Config, s: State, act: Action)
    requires Inv(c, s) && Enabled(c, s, act) && s.producer.Returned?
    ensures Next(c, s, act).producer == s.producer && act != Publish(None)
  {
  }

  /** Calls that have nothing left to publish stay so. */
  lemma PublishedStays(h: System, a: Act, k: nat)
    requires CallsOk(h) && CanAct(h, a) && k < |h.calls| && HasPublished(h.calls[k])
    ensures k < |After(h, a).calls| && HasPublished(After(h, a).calls[k])
  {
    if a.Step? && a.k == k {
      assert Loaded(h, k) == h.calls[k].st;
      StepKeepsPublished(h.calls[k].cfg, h.calls[k].st, a.act);
    }
  }

  /** A call that publishes has not done so before. */
  lemma PublishesOnce(h: System, a: Act)
    requires CallsOk(h) && CanAct(h, a)
    ensures var g := After(h, a);
            || g.log == h.log
            || (exists e: Event :: g.log == h.log + [e] && e.call < |h.calls| == |g.calls|
                                   && !HasPublished(h.calls[e.call]) && HasPublished(g.calls[e.call])
                                   && (e.Dropped? ==> e.table == map[]))
  {
    var g := After(h, a);
    if a.Step? && a.act == Publish(None) {
      var e := Updated(a.k, h.db);
      assert g.log == h.log + [e];
    } else if a.AnnounceReturns? && a.failed.None? {
      var e := Dropped(a.k, h.db);
      assert g.log == h.log + [e];
    }
  }

  lemma OldLogStays(h: System, a: Act)
    requires CallsOk(h) && LogOk(h) && CanAct(h, a)
    ensures forall i :: 0 <= i < |h.log| ==>
              h.log[i].call < |After(h, a).calls| && HasPublished(After(h, a).calls[h.log[i].call])
  {
    forall i | 0 <= i < |h.log|
      ensures h.log[i].call < |After(h, a).calls| && HasPublished(After(h, a).calls[h.log[i].call])
    {
      PublishedStays(h, a, h.log[i].call);
    }
  }

  lemma NewEvent(h: System, g: System, e: Event)
    requires LogOk(h) && g.log == h.log + [e]
    requires forall i :: 0 <= i < |h.log| ==> h.log[i].call < |g.calls| && HasPublished(g.calls[h.log[i].call])
    requires e.call < |h.calls| && !HasPublished(h.calls[e.call]) && (e.Dropped? ==> e.table == map[])
    requires e.call < |g.calls| && HasPublished(g.calls[e.call])
    ensures LogOk(g)
  {
  }

  lemma StepKeepsLog(h: System, a: Act)
    requires CallsOk(h) && LogOk(h) && CanAct(h, a)
    ensures LogOk(After(h, a))
  {
    var g := After(h, a);
    OldLogStays(h, a);
    PublishesOnce(h, a);
    if g.log != h.log {
      var e: Event :| g.log == h.log + [e] && e.call < |h.calls| == |g.calls|
                      && !HasPublished(h.calls[e.call]) && HasPublished(g.calls[e.call])
                      && (e.Dropped? ==> e.table == map[]);
      NewEvent(h, g, e);
    }
  }

  lemma StepKeepsKinds(h: System, a: Act)
    requires KindsOk(h) && CanAct(h, a)
    ensures KindsOk(After(h, a))
  {
    var g := After(h, a);
    forall k | 0 <= k < |g.calls| ensures Does(g.calls[k], g.kinds[k]) {
      assert k < |h.calls| ==> Does(h.calls[k], h.kinds[k]);
    }
  }

  lemma StepSane(h: System, a: Act)
    requires Sane(h) && CanAct(h, a)
    ensures Sane(After(h, a))
  {
    StepKeepsGate(h, a);
    if a.Step? { EngineStepKeepsCalls(h, a.k, a.act); } else { OtherStepKeepsCalls(h, a); }
    StepKeepsLog(h, a);
    StepKeepsKinds(h, a);
  }

  lemma {:induction false} PastSane(h: System, acts: seq<Act>, g: System)
    requires Sane(h) && Past(h, acts, g)
    ensures Sane(g)
    decreases |acts|
  {
    if acts == [] {
    } else {
      StepSane(h, acts[0]);
      PastSane(After(h, acts[0]), acts[1..], g);
    }
  }

  // ----- Over every history -----

  /** At most one call is past the gate, and the status is running exactly while one is. */
  lemma GateSafety(n: nat, p: Publisher, db: Table, acts: seq<Act>, h: System)
    requires n >= 1 && Past(Start(n, p, db), acts, h)
    ensures forall i, j :: 0 <= i < |h.calls| && 0 <= j < |h.calls| && Holds(h.calls[i]) && Holds(h.calls[j]) ==> i == j
    ensures h.status == StatusRunning <==> exists k :: 0 <= k < |h.calls| && Holds(h.calls[k])
  {
    PastSane(Start(n, p, db), acts, h);
    if h.holder.Some? {
      assert Holds(h.calls[h.holder.value]);
    }
  }

  lemma WriterHolds(h: System, a: Act)
    requires CanAct(h, a)
    ensures After(h, a).db != h.db ==>
              && ((a.Step? && a.act.AddReturns?) || a.TruncateReturns?)
              && a.k < |h.calls| && Holds(h.calls[a.k])
  {
    if a.Step? {
      OnlyAddWrites(h.calls[a.k].cfg, Loaded(h, a.k), a.act);
    }
  }

  /** Only the call past the gate and its workers change the table. */
  lemma OnlyHolderWrites(n: nat, p: Publisher, db: Table, acts: seq<Act>, h: System, a: Act)
    requires n >= 1 && Past(Start(n, p, db), acts, h) && CanAct(h, a)
    ensures After(h, a).db != h.db ==>
              && ((a.Step? && a.act.AddReturns?) || a.TruncateReturns?)
              && h.status == StatusRunning && a.k < |h.calls| && Holds(h.calls[a.k])
              && forall j :: 0 <= j < |h.calls| && j != a.k ==> !Holds(h.calls[j])
  {
    PastSane(Start(n, p, db), acts, h);
    if After(h, a).db != h.db {
      WriterHolds(h, a);
      forall j | 0 <= j < |h.calls| && j != a.k ensures !Holds(h.calls[j]) {
        OthersOutside(h, a.k, j);
      }
    }
  }

  /** Leaving, on whichever path, makes the service idle and leaves no worker behind. */
  lemma ExitIsClean(n: nat, p: Publisher, db: Table, acts: seq<Act>, h: System, k: nat)
    requires n >= 1 && Past(Start(n, p, db), acts, h) && CanAct(h, Exit(k))
    ensures After(h, Exit(k)).status == StatusIdle
    ensures After(h, Exit(k)).calls[k] ==
            Done(if h.calls[k].Leaving? then h.calls[k].err else h.calls[k].st.producer.err)
    ensures forall j :: 0 <= j < |h.calls| ==> !Holds(After(h, Exit(k)).calls[j])
    ensures h.calls[k].Updating? ==>
              && h.calls[k].st.wg == 0
              && forall i :: 0 <= i < |h.calls[k].st.workers| ==> h.calls[k].st.workers[i].Exited?
  {
    PastSane(Start(n, p, db), acts, h);
    StepSane(h, Exit(k));
    if h.calls[k].Updating? {
      SumZero(h.calls[k].st.workers, LiveOf);
    }
  }

  /**
   * Events and table.  A call publishes at most once; "dropped" goes out over an
   * empty table; "updated" goes out when every worker has exited and no error but
   * Canceled was reported.
   */
  lemma EventsAgree(n: nat, p: Publisher, db: Table, acts: seq<Act>, h: System, a: Act)
    requires n >= 1 && Past(Start(n, p, db), acts, h) && CanAct(h, a)
    ensures forall i, j :: 0 <= i < j < |h.log| ==> h.log[i].call != h.log[j].call
    ensures forall i :: 0 <= i < |h.log| && h.log[i].Dropped? ==> h.log[i].table == map[]
    ensures forall i :: 0 <= i < |h.log| ==>
              h.log[i].call < |h.kinds| && (h.log[i].Updated? <==> h.kinds[h.log[i].call].Update?)
    ensures a.Step? && |After(h, a).log| > |h.log| ==>
              && FirstReal(h.calls[a.k].st.sent) == None
              && h.calls[a.k].cfg.lastID < h.calls[a.k].st.next
              && forall i :: 0 <= i < |h.calls[a.k].st.workers| ==> h.calls[a.k].st.workers[i].Exited?
  {
    PastSane(Start(n, p, db), acts, h);
    if a.Step? {
      assert Loaded(h, a.k) == h.calls[a.k].st;
    }
  }

  /** The call's result is nil, whether or not it has already left. */
  predicate NilResult(c: Call) {
    || (c.Leaving? && c.err.None?)
    || (c.Done? && c.err.None?)
    || (c.Updating? && c.st.producer == Returned(None))
  }

  ghost predicate Announced(h: System, k: int) {
    exists i :: 0 <= i < |h.log| && h.log[i].call == k
  }

  ghost predicate NilOk(h: System) {
    forall k :: 0 <= k < |h.calls| ==> (NilResult(h.calls[k]) <==> Announced(h, k))
  }

  lemma NilOnlyByPublish(c: Config, s: State, act: Action)
    requires Enabled(c, s, act) && !c.publisher.NoPublisher? && s.producer != Returned(None)
    ensures Next(c, s, act).producer == Returned(None) <==> act == Publish(None)
  {
    if !OfProducer(act) && !act.Dispatch? {
      WorkerSteps(c, s, act);
    }
  }

  lemma LogExtends(h: System, a: Act, k: int)
    requires Sane(h) && CanAct(h, a)
    ensures var g := After(h, a);
            Announced(g, k) <==> Announced(h, k) || (|g.log| > |h.log| && g.log[|h.log|].call == k)
  {
    var g := After(h, a);
    assert |g.log| == |h.log| || |g.log| == |h.log| + 1;
    assert forall i :: 0 <= i < |h.log| ==> g.log[i] == h.log[i];
  }

  lemma StepKeepsNil(h: System, a: Act)
    requires Sane(h) && NilOk(h) && CanAct(h, a) && !h.publisher.NoPublisher?
    ensures NilOk(After(h, a))
  {
    var g := After(h, a);
    if a.Step? {
      assert Loaded(h, a.k) == h.calls[a.k].st;
      if h.calls[a.k].st.producer.Returned? {
        StepKeepsPublished(h.calls[a.k].cfg, h.calls[a.k].st, a.act);
      } else {
        NilOnlyByPublish(h.calls[a.k].cfg, h.calls[a.k].st, a.act);
      }
    }
    forall k | 0 <= k < |g.calls| ensures NilResult(g.calls[k]) <==> Announced(g, k) {
      LogExtends(h, a, k);
      if k < |h.calls| {
        assert NilResult(h.calls[k]) <==> Announced(h, k);
      }
    }
  }

  lemma {:induction false} PastNil(h: System, acts: seq<Act>, g: System)
    requires Sane(h) && NilOk(h) && Past(h, acts, g) && !h.publisher.NoPublisher?
    ensures NilOk(g)
    decreases |acts|
  {
    if acts == [] {
    } else {
      StepSane(h, acts[0]);
      StepKeepsNil(h, acts[0]);
      PastNil(After(h, acts[0]), acts[1..], g);
    }
  }

  /** With a publisher: a call has nil as its result if and only if its event is out. */
  lemma NilIffAnnounced(n: nat, p: Publisher, db: Table, acts: seq<Act>, h: System, k: nat)
    requires n >= 1 && !p.NoPublisher? && Past(Start(n, p, db), acts, h) && k < |h.calls|
    ensures NilResult(h.calls[k]) <==> Announced(h, k)
  {
    PastNil(Start(n, p, db), acts, h);
  }

  /** Nobody to tell, nothing told. */
  ghost predicate Silent(h: System) {
    h.publisher.NoPublisher? && h.log == [] && forall k :: 0 <= k < |h.calls| ==> !h.calls[k].Announcing?
  }

  lemma StepKeepsSilent(h: System, a: Act)
    requires CallsOk(h) && Silent(h) && CanAct(h, a)
    ensures Silent(After(h, a))
  {
    if a.Step? {
      assert Inv(h.calls[a.k].cfg, h.calls[a.k].st);
    }
  }

  /** Without a publisher no event ever goes out. */
  lemma {:induction false} NoPublisherNoEvents(h: System, acts: seq<Act>, g: System)
    requires Sane(h) && Silent(h) && Past(h, acts, g)
    ensures g.log == []
    decreases |acts|
  {
    if acts == [] {
    } else {
      StepSane(h, acts[0]);
      StepKeepsSilent(h, acts[0]);
      NoPublisherNoEvents(After(h, acts[0]), acts[1..], g);
    }
  }

  /** Call `k` has run into more failures than errCh can hold. */
  ghost predicate Hung(h: System, k: nat) {
    && k < |h.calls| && h.calls[k].Updating?
    && |FailedIds(h.calls[k].st)| > h.concurrency
  }

  lemma StepKeepsHung(h: System, a: Act, k: nat)
    requires Sane(h) && Hung(h, k) && CanAct(h, a)
    ensures Hung(After(h, a), k)
  {
    EngineTermination.Overfull(h.calls[k].cfg, h.calls[k].st);
    if a.Step? && a.k == k {
      var c, s := h.calls[k].cfg, Loaded(h, k);
      assert s == h.calls[k].st;
      var t := Next(c, s, a.act);
      assert Run(c, t, [], t) && [a.act][1..] == [];
      assert Run(c, s, [a.act], t);
      EngineTermination.FailuresOnlyGrow(c, s, [a.act], t);
    }
  }

  /**
   * A hung `Update` keeps the service to itself: the status stays running, the
   * call never returns, and whoever comes to the gate is turned away.
   */
  lemma {:induction false} HungBlocksService(h: System, acts: seq<Act>, g: System, k: nat)
    requires Sane(h) && Hung(h, k) && Past(h, acts, g)
    ensures g.status == StatusRunning && Hung(g, k) && !g.calls[k].st.producer.Returned?
    ensures forall j: nat :: CanAct(g, Enter(j)) ==> After(g, Enter(j)).calls[j] == Done(Some(AlreadyExists))
    decreases |acts|
  {
    if acts == [] {
      EngineTermination.Overfull(h.calls[k].cfg, h.calls[k].st);
      assert Holds(h.calls[k]);
    } else {
      StepSane(h, acts[0]);
      StepKeepsHung(h, acts[0], k);
      HungBlocksService(After(h, acts[0]), acts[1..], g, k);
    }
  }

  /** Nobody is left standing: every call that is not back can act, unless its errors have filled errCh. */
  lemma NobodyIsStranded(n: nat, p: Publisher, db: Table, acts: seq<Act>, h: System, k: nat) returns (a: Act)
    requires n >= 1 && Past(Start(n, p, db), acts, h) && k < |h.calls| && !h.calls[k].Done? && !Hung(h, k)
    ensures CanAct(h, a) && !a.Invoke? && a.k == k && (a.Step? ==> !a.act.CancelContext?)
  {
    PastSane(Start(n, p, db), acts, h);
    match h.calls[k]
    case Invoked(_) => a := Enter(k);
    case ReadingLast => a := LastIDReturns(k, Err(NotFound));
    case ReadingIDs(_) => a := IDsReturns(k, Some(NotFound), false, Canceled);
    case Truncating => a := TruncateReturns(k, Some(NotFound), false);
    case Announcing => a := AnnounceReturns(k, Some(NotFound));
    case Leaving(_) => a := Exit(k);
    case Updating(c, s) =>
      assert Loaded(h, k) == s;
      if s.producer.Returned? {
        a := Exit(k);
      } else {
        var act := EngineTermination.Progress(c, s);
        a := Step(k, act);
      }
  }

  lemma {:induction false} PastConcat(h: System, p: seq<Act>, g: System, q: seq<Act>, f: System)
    requires Past(h, p, g) && Past(g, q, f)
    ensures Past(h, p + q, f)
    decreases |p|
  {
    if p == [] {
      assert p + q == q;
    } else {
      PastConcat(After(h, p[0]), p[1..], g, q, f);
      assert (p + q)[0] == p[0] && (p + q)[1..] == p[1..] + q;
    }
  }

  /** Every run of one call is part of a history of the service. */
  lemma {:induction false} RunInHistory(h: System, k: nat, acts: seq<Action>, t: State)
    returns (p: seq<Act>, g: System)
    requires k < |h.calls| && h.calls[k].Updating? && Run(h.calls[k].cfg, Loaded(h, k), acts, t)
    ensures Past(h, p, g) && g.concurrency == h.concurrency && k < |g.calls|
    ensures g.calls[k].Updating? && g.calls[k].cfg == h.calls[k].cfg && Loaded(g, k) == t
    ensures |g.calls| == |h.calls| && forall j :: 0 <= j < |h.calls| && j != k ==> g.calls[j] == h.calls[j]
    decreases |acts|
  {
    if acts == [] {
      p, g := [], h;
    } else {
      var a := Step(k, acts[0]);
      var m := After(h, a);
      assert Loaded(m, k) == Next(h.calls[k].cfg, Loaded(h, k), acts[0]);
      var q;
      q, g := RunInHistory(m, k, acts[1..], t);
      p := [a] + q;
      assert p[1..] == q;
    }
  }

  /** One call from the door of an idle service to its loop over the ids. */
  lemma CallStarts(n: nat, p: Publisher, db: Table, last: int, ctxErr: Error) returns (acts: seq<Act>, h: System)
    ensures Past(Start(n, p, db), acts, h)
    ensures h.concurrency == n && |h.calls| == 1 && h.calls[0].Updating?
    ensures h.calls[0].cfg == Config(n, last, db, ctxErr, p) && Loaded(h, 0) == Init(h.calls[0].cfg, false)
  {
    var s := Start(n, p, db);
    var a, b := Invoke(Update), Enter(0);
    var d, e := LastIDReturns(0, Ok(last)), IDsReturns(0, None, false, ctxErr);
    var s1 := After(s, a);
    var s2 := After(s1, b);
    assert s2.calls == [ReadingLast];
    var s3 := After(s2, d);
    assert s3.calls == [ReadingIDs(last)] && s3.db == db && s3.concurrency == n && s3.publisher == p;
    h := After(s3, e);
    acts := [a, b, d, e];
    assert [a, b, d, e][1..] == [b, d, e] && [b, d, e][1..] == [d, e] && [d, e][1..] == [e] && [e][1..] == [];
    assert Past(h, [], h);
    assert Past(s3, [e], h);
    assert Past(s2, [d, e], h);
    assert Past(s1, [b, d, e], h);
  }

  /** An idle service with more missing comics than workers: one `Update` can block it for good. */
  lemma ServiceCanHang(n: nat, p: Publisher, db: Table, last: int, ctxErr: Error)
    returns (acts: seq<Act>, h: System)
    requires n >= 1 && |Config(n, last, db, ctxErr, p).MissingFrom(1)| > n
    ensures Past(Start(n, p, db), acts, h) && Hung(h, 0)
  {
    var c := Config(n, last, db, ctxErr, p);
    var pre, m := CallStarts(n, p, db, last, ctxErr);
    var run, t := EngineTermination.CanHang(c);
    InitInv(c, false);
    RunInv(c, Init(c, false), run, t);
    EngineTermination.TerminationBoundary(c, false, run, t);
    var q;
    q, h := RunInHistory(m, 0, run, t);
    PastConcat(Start(n, p, db), pre, m, q, h);
    acts := pre + q;
  }
}
