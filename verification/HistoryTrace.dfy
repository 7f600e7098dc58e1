/** Where the result of each call comes from, over whole histories. */
module HistoryTrace {
  import opened Common
  import opened Engine
  import opened EngineInvariant
  import opened EngineRefinement
  import opened EngineDrive
  import opened EngineLoss
  import opened EngineTrace
  import opened EngineResult
  import opened EngineRows
  import opened Gate
  import opened History

  /** What call `k` has done in its loop. */
  function StepsOf(acts: seq<Act>, k: nat): seq<Action> {
    if acts == [] then []
    else
      var a := acts[|acts| - 1];
      StepsOf(acts[..|acts| - 1], k) + if a.Step? && a.k == k then [a.act] else []
  }

  /** The call that is past the gate. */
  function Inside(acts: seq<Act>): Option<nat> {
    if acts == [] then None
    else
      var before := Inside(acts[..|acts| - 1]);
      match acts[|acts| - 1]
      case Enter(k) => if before.None? then Some(k) else before
      case Exit(_) => None
      case _ => before
  }

  /** Call `k` has come to the gate while another one was past it. */
  predicate TurnedAwayAt(acts: seq<Act>, k: nat, i: int) {
    0 <= i < |acts| && acts[i] == Enter(k) && Inside(acts[..i]).Some?
  }

  ghost predicate TurnedAway(acts: seq<Act>, k: nat) {
    exists i :: TurnedAwayAt(acts, k, i)
  }

  /** An answer of the outside world that decides what its call returns. */
  predicate Decides(a: Act, k: nat, result: Option<Error>) {
    || (a.LastIDReturns? && a.k == k && a.last.Err? && result == Some(a.last.error))
    || (a.IDsReturns? && a.k == k && a.failed.Some? && result == a.failed)
    || (a.TruncateReturns? && a.k == k && a.failed.Some? && result == a.failed)
    || (a.AnnounceReturns? && a.k == k && result == a.failed)
  }

  ghost predicate Decided(acts: seq<Act>, k: nat, result: Option<Error>) {
    exists i :: 0 <= i < |acts| && Decides(acts[i], k, result)
  }

  /** The loop of call `k` is a run of the engine, for the number and the table that were read. */
  ghost predicate OwnRun(n: nat, p: Publisher, acts: seq<Act>, k: nat, c: Config, ctxDone: bool, s: State) {
    && c.concurrency == n && c.publisher == p
    && LastIDReturns(k, Ok(c.lastID)) in acts && IDsReturns(k, None, ctxDone, c.ctxErr) in acts
    && Run(c, Init(c, ctxDone), StepsOf(acts, k), s)
  }

  /** A drop is done once the table is truncated and there is nobody to tell. */
  predicate DroppedQuietly(p: Publisher, acts: seq<Act>, k: nat) {
    p.NoPublisher? && TruncateReturns(k, None, true) in acts
  }

  /** How call `k` can have come by this result. */
  ghost predicate Explained(n: nat, p: Publisher, acts: seq<Act>, k: nat, result: Option<Error>) {
    || (result == Some(AlreadyExists) && TurnedAway(acts, k))
    || Decided(acts, k, result)
    || (result == None && DroppedQuietly(p, acts, k))
    || exists c, ctxDone, s :: OwnRun(n, p, acts, k, c, ctxDone, s) && s.producer == Returned(result)
  }

  /** How far call `k` is, told by the acts. */
  ghost predicate CallMatches(n: nat, p: Publisher, acts: seq<Act>, k: nat, call: Call) {
    match call
    case Invoked(_) => StepsOf(acts, k) == []
    case ReadingLast => StepsOf(acts, k) == []
    case ReadingIDs(last) => StepsOf(acts, k) == [] && LastIDReturns(k, Ok(last)) in acts
    case Updating(c, s) => exists ctxDone :: OwnRun(n, p, acts, k, c, ctxDone, s)
    case Truncating => true
    case Announcing => true
    case Leaving(err) => Explained(n, p, acts, k, err)
    case Done(err) => Explained(n, p, acts, k, err)
  }

  /** Whose service it is and who is past its gate. */
  predicate ServiceMatches(n: nat, p: Publisher, acts: seq<Act>, h: System) {
    h.concurrency == n && h.publisher == p && h.holder == Inside(acts)
  }

  ghost predicate HistoryMatches(n: nat, p: Publisher, acts: seq<Act>, h: System) {
    && ServiceMatches(n, p, acts, h)
    && (forall k: nat :: k < |h.calls| ==> CallMatches(n, p, acts, k, h.calls[k]))
    && (forall k: nat :: k >= |h.calls| ==> StepsOf(acts, k) == [])
  }

  lemma ActsSnoc(acts: seq<Act>, a: Act, k: nat)
    ensures (acts + [a])[..|acts|] == acts && (acts + [a])[|acts|] == a
    ensures forall x :: x in acts + [a] <==> x in acts || x == a
    ensures StepsOf(acts + [a], k) == if a.Step? && a.k == k then StepsOf(acts, k) + [a.act] else StepsOf(acts, k)
  {
    assert StepsOf(acts, k) + [] == StepsOf(acts, k);
  }

  lemma TurnedAwaySnoc(acts: seq<Act>, a: Act, k: nat)
    ensures TurnedAway(acts + [a], k) <==> TurnedAway(acts, k) || (a == Enter(k) && Inside(acts).Some?)
  {
    ActsSnoc(acts, a, k);
    forall i | 0 <= i < |acts| ensures TurnedAwayAt(acts + [a], k, i) <==> TurnedAwayAt(acts, k, i) {
      assert (acts + [a])[..i] == acts[..i];
    }
    assert TurnedAwayAt(acts + [a], k, |acts|) <==> a == Enter(k) && Inside(acts).Some?;
  }

  lemma DecidedSnoc(acts: seq<Act>, a: Act, k: nat, result: Option<Error>)
    ensures Decided(acts + [a], k, result) <==> Decided(acts, k, result) || Decides(a, k, result)
  {
    ActsSnoc(acts, a, k);
    if i :| 0 <= i < |acts| && Decides(acts[i], k, result) {
      assert (acts + [a])[i] == acts[i];
    }
  }

  lemma OwnRunStays(n: nat, p: Publisher, acts: seq<Act>, a: Act, k: nat, c: Config, d: bool, s: State)
    requires OwnRun(n, p, acts, k, c, d, s) && !(a.Step? && a.k == k)
    ensures OwnRun(n, p, acts + [a], k, c, d, s)
  {
    ActsSnoc(acts, a, k);
  }

  /** What explains a result goes on explaining it. */
  lemma ExplainedStays(n: nat, p: Publisher, acts: seq<Act>, a: Act, k: nat, result: Option<Error>)
    requires Explained(n, p, acts, k, result) && !(a.Step? && a.k == k)
    ensures Explained(n, p, acts + [a], k, result)
  {
    if Decided(acts, k, result) {
      DecidedSnoc(acts, a, k, result);
    } else if TurnedAway(acts, k) && result == Some(AlreadyExists) {
      TurnedAwaySnoc(acts, a, k);
    } else if result == None && DroppedQuietly(p, acts, k) {
      ActsSnoc(acts, a, k);
    } else {
      var c, d, s :| OwnRun(n, p, acts, k, c, d, s) && s.producer == Returned(result);
      OwnRunStays(n, p, acts, a, k, c, d, s);
    }
  }

  lemma OtherCall(n: nat, p: Publisher, acts: seq<Act>, a: Act, k: nat, call: Call)
    requires CallMatches(n, p, acts, k, call) && (a.Invoke? || a.k != k)
    ensures CallMatches(n, p, acts + [a], k, call)
  {
    ActsSnoc(acts, a, k);
    match call
    case Leaving(err) => ExplainedStays(n, p, acts, a, k, err);
    case Done(err) => ExplainedStays(n, p, acts, a, k, err);
    case Updating(c, s) =>
      var d :| OwnRun(n, p, acts, k, c, d, s);
      OwnRunStays(n, p, acts, a, k, c, d, s);
    case _ =>
  }

  lemma OwnStep(n: nat, p: Publisher, acts: seq<Act>, k: nat, c: Config, s: State, act: Action)
    requires CallMatches(n, p, acts, k, Updating(c, s)) && Enabled(c, s, act)
    ensures CallMatches(n, p, acts + [Step(k, act)], k, Updating(c, Next(c, s, act)))
  {
    var d :| OwnRun(n, p, acts, k, c, d, s);
    var t := Next(c, s, act);
    ActsSnoc(acts, Step(k, act), k);
    assert Run(c, t, [], t) && [act][1..] == [];
    RunConcat(c, Init(c, d), StepsOf(acts, k), s, [act], t);
    assert OwnRun(n, p, acts + [Step(k, act)], k, c, d, t);
  }

  lemma LoopStarts(n: nat, p: Publisher, acts: seq<Act>, k: nat, c: Config, d: bool)
    requires c.concurrency == n && c.publisher == p && StepsOf(acts, k) == [] && LastIDReturns(k, Ok(c.lastID)) in acts
    ensures CallMatches(n, p, acts + [IDsReturns(k, None, d, c.ctxErr)], k, Updating(c, Init(c, d)))
  {
    var a := IDsReturns(k, None, d, c.ctxErr);
    ActsSnoc(acts, a, k);
    assert OwnRun(n, p, acts + [a], k, c, d, Init(c, d));
  }

  lemma Leaves(n: nat, p: Publisher, acts: seq<Act>, h: System, k: nat)
    requires CanAct(h, Exit(k)) && CallMatches(n, p, acts, k, h.calls[k])
    ensures CallMatches(n, p, acts + [Exit(k)], k, After(h, Exit(k)).calls[k])
  {
    var err := After(h, Exit(k)).calls[k].err;
    assert Explained(n, p, acts, k, err);
    ExplainedStays(n, p, acts, Exit(k), k, err);
  }

  /** The gate decides what a caller gets that is turned away. */
  lemma GateDecides(n: nat, p: Publisher, acts: seq<Act>, h: System, k: nat)
    requires h.holder == Inside(acts) && GateOk(h) && CanAct(h, Enter(k)) && After(h, Enter(k)).calls[k].Done?
    ensures Explained(n, p, acts + [Enter(k)], k, After(h, Enter(k)).calls[k].err)
  {
    TurnedAwaySnoc(acts, Enter(k), k);
  }

  lemma TruncationDecides(n: nat, p: Publisher, acts: seq<Act>, h: System, a: Act)
    requires h.publisher == p && CanAct(h, a) && a.TruncateReturns? && After(h, a).calls[a.k].Leaving?
    ensures Explained(n, p, acts + [a], a.k, After(h, a).calls[a.k].err)
  {
    ActsSnoc(acts, a, a.k);
    if a.failed.Some? {
      DecidedSnoc(acts, a, a.k, a.failed);
    } else {
      assert a == TruncateReturns(a.k, None, true);
    }
  }

  /** An answer of the outside world that ends the call decides its result. */
  lemma AnswerDecides(n: nat, p: Publisher, acts: seq<Act>, h: System, a: Act)
    requires CanAct(h, a) && (a.LastIDReturns? || a.IDsReturns? || a.AnnounceReturns?)
    requires After(h, a).calls[a.k].Leaving?
    ensures Explained(n, p, acts + [a], a.k, After(h, a).calls[a.k].err)
  {
    var err := After(h, a).calls[a.k].err;
    assert Decides(a, a.k, err);
    DecidedSnoc(acts, a, a.k, err);
  }

  lemma Moves(n: nat, p: Publisher, acts: seq<Act>, h: System, a: Act)
    requires ServiceMatches(n, p, acts, h) && GateOk(h) && CanAct(h, a)
    requires !a.Invoke? && CallMatches(n, p, acts, a.k, h.calls[a.k])
    requires || a.Enter? || a.LastIDReturns? || a.TruncateReturns? || a.AnnounceReturns?
             || (a.IDsReturns? && a.failed.Some?)
    ensures CallMatches(n, p, acts + [a], a.k, After(h, a).calls[a.k])
  {
    var k, call := a.k, After(h, a).calls[a.k];
    ActsSnoc(acts, a, k);
    if call.Done? {
      GateDecides(n, p, acts, h, k);
    } else if call.Leaving? && a.TruncateReturns? {
      TruncationDecides(n, p, acts, h, a);
    } else if call.Leaving? {
      AnswerDecides(n, p, acts, h, a);
    }
  }

  /** The call that acts is where the acts say. */
  lemma OwnCall(n: nat, p: Publisher, acts: seq<Act>, h: System, a: Act)
    requires GateOk(h) && CallsOk(h) && ServiceMatches(n, p, acts, h) && CanAct(h, a)
    requires !a.Invoke? && CallMatches(n, p, acts, a.k, h.calls[a.k])
    ensures CallMatches(n, p, acts + [a], a.k, After(h, a).calls[a.k])
  {
    var k, g := a.k, After(h, a);
    if a.Step? {
      assert Loaded(h, k) == h.calls[k].st;
      OwnStep(n, p, acts, k, h.calls[k].cfg, h.calls[k].st, a.act);
    } else if a.Exit? {
      Leaves(n, p, acts, h, k);
    } else if a.IDsReturns? && a.failed.None? {
      LoopStarts(n, p, acts, k, g.calls[k].cfg, a.ctxDone);
    } else {
      Moves(n, p, acts, h, a);
    }
  }

  lemma StepInside(acts: seq<Act>, h: System, a: Act)
    requires GateOk(h) && h.holder == Inside(acts) && CanAct(h, a)
    ensures After(h, a).holder == Inside(acts + [a])
  {
    ActsSnoc(acts, a, 0);
  }

  lemma OthersStay(h: System, a: Act, k: nat)
    requires CanAct(h, a) && (a.Invoke? || a.k != k)
    ensures var g := After(h, a);
            && (k < |h.calls| ==> k < |g.calls| && g.calls[k] == h.calls[k])
            && (|h.calls| <= k < |g.calls| ==> g.calls[k].Invoked?)
  {
  }

  lemma StepCall(n: nat, p: Publisher, acts: seq<Act>, h: System, a: Act, k: nat)
    requires GateOk(h) && CallsOk(h) && ServiceMatches(n, p, acts, h) && CanAct(h, a)
    requires if k < |h.calls| then CallMatches(n, p, acts, k, h.calls[k]) else StepsOf(acts, k) == []
    ensures var g := After(h, a);
            if k < |g.calls| then CallMatches(n, p, acts + [a], k, g.calls[k]) else StepsOf(acts + [a], k) == []
  {
    if !a.Invoke? && a.k == k {
      OwnCall(n, p, acts, h, a);
    } else {
      OthersStay(h, a, k);
      if k < |h.calls| {
        OtherCall(n, p, acts, a, k, h.calls[k]);
      } else {
        ActsSnoc(acts, a, k);
      }
    }
  }

  lemma StepHistory(n: nat, p: Publisher, acts: seq<Act>, h: System, a: Act)
    requires Sane(h) && HistoryMatches(n, p, acts, h) && CanAct(h, a)
    ensures HistoryMatches(n, p, acts + [a], After(h, a))
  {
    var g := After(h, a);
    StepInside(acts, h, a);
    forall k: nat
      ensures if k < |g.calls| then CallMatches(n, p, acts + [a], k, g.calls[k]) else StepsOf(acts + [a], k) == []
    {
      assert if k < |h.calls| then CallMatches(n, p, acts, k, h.calls[k]) else StepsOf(acts, k) == [];
      StepCall(n, p, acts, h, a, k);
    }
  }

  lemma {:induction false} HistoryOfActs(n: nat, p: Publisher, db: Table, acts: seq<Act>, h: System)
    requires n >= 1 && Past(Start(n, p, db), acts, h)
    ensures HistoryMatches(n, p, acts, h)
  {
    if acts == [] {
    } else {
      var i := |acts| - 1;
      var m := PastLast(Start(n, p, db), acts, h);
      HistoryOfActs(n, p, db, acts[..i], m);
      PastSane(Start(n, p, db), acts[..i], m);
      StepHistory(n, p, acts[..i], m, acts[i]);
      assert acts[..i] + [acts[i]] == acts;
    }
  }

  /** The call has its result, whether or not it has already left. */
  predicate HasResult(c: Call, result: Option<Error>) {
    c == Leaving(result) || c == Done(result)
  }

  /** What was decided is what the caller gets. */
  ghost predicate ResultsKept(acts: seq<Act>, h: System) {
    && (forall k: nat, r :: Decided(acts, k, r) ==> k < |h.calls| && HasResult(h.calls[k], r))
    && (forall k: nat :: TurnedAway(acts, k) ==> k < |h.calls| && h.calls[k] == Done(Some(AlreadyExists)))
  }

  lemma StepResults(acts: seq<Act>, h: System, a: Act)
    requires GateOk(h) && h.holder == Inside(acts) && ResultsKept(acts, h) && CanAct(h, a)
    ensures ResultsKept(acts + [a], After(h, a))
  {
    var g := After(h, a);
    forall k: nat, r | Decided(acts + [a], k, r) ensures k < |g.calls| && HasResult(g.calls[k], r) {
      DecidedSnoc(acts, a, k, r);
    }
    forall k: nat | TurnedAway(acts + [a], k) ensures k < |g.calls| && g.calls[k] == Done(Some(AlreadyExists)) {
      TurnedAwaySnoc(acts, a, k);
    }
  }

  lemma {:induction false} ResultsOfActs(n: nat, p: Publisher, db: Table, acts: seq<Act>, h: System)
    requires n >= 1 && Past(Start(n, p, db), acts, h)
    ensures ResultsKept(acts, h)
  {
    if acts == [] {
    } else {
      var i := |acts| - 1;
      var m := PastLast(Start(n, p, db), acts, h);
      ResultsOfActs(n, p, db, acts[..i], m);
      PastSane(Start(n, p, db), acts[..i], m);
      HistoryOfActs(n, p, db, acts[..i], m);
      StepResults(acts[..i], m, acts[i]);
      assert acts[..i] + [acts[i]] == acts;
    }
  }

  // ----- Over every history -----

  /** The status, told by who came and went: running exactly while somebody is past the gate. */
  lemma StatusOfActs(n: nat, p: Publisher, db: Table, acts: seq<Act>, h: System)
    requires n >= 1 && Past(Start(n, p, db), acts, h)
    ensures h.status == StatusRunning <==> Inside(acts).Some?
    ensures Inside(acts).Some? ==> Inside(acts).value < |h.calls| && Holds(h.calls[Inside(acts).value])
  {
    HistoryOfActs(n, p, db, acts, h);
    PastSane(Start(n, p, db), acts, h);
  }

  /** Every `Update` in its loop is one run of the engine, whatever the other calls do in between. */
  lemma UpdatesAreRuns(n: nat, p: Publisher, db: Table, acts: seq<Act>, h: System, k: nat)
    requires n >= 1 && Past(Start(n, p, db), acts, h) && k < |h.calls| && h.calls[k].Updating?
    ensures exists ctxDone :: OwnRun(n, p, acts, k, h.calls[k].cfg, ctxDone, h.calls[k].st)
  {
    HistoryOfActs(n, p, db, acts, h);
    assert CallMatches(n, p, acts, k, h.calls[k]);
  }

  /** Every result is explained by what happened in the history, and every decision reaches its caller. */
  lemma ResultsAgree(n: nat, p: Publisher, db: Table, acts: seq<Act>, h: System, k: nat, result: Option<Error>)
    requires n >= 1 && Past(Start(n, p, db), acts, h)
    ensures k < |h.calls| && h.calls[k] == Done(result) ==> Explained(n, p, acts, k, result)
    ensures Decided(acts, k, result) ==> k < |h.calls| && HasResult(h.calls[k], result)
    ensures TurnedAway(acts, k) ==> k < |h.calls| && h.calls[k] == Done(Some(AlreadyExists))
  {
    HistoryOfActs(n, p, db, acts, h);
    ResultsOfActs(n, p, db, acts, h);
    assert k < |h.calls| ==> CallMatches(n, p, acts, k, h.calls[k]);
  }

  /** Where the error comes from that a caller is given, down to the collaborator that reported it. */
  lemma ErrorsHaveSources(n: nat, p: Publisher, db: Table, acts: seq<Act>, h: System, k: nat, e: Error)
    requires n >= 1 && Past(Start(n, p, db), acts, h) && k < |h.calls| && h.calls[k] == Done(Some(e))
    ensures || (e == AlreadyExists && TurnedAway(acts, k))
            || Decided(acts, k, Some(e))
            || (exists c, ctxDone, s ::
                  OwnRun(n, p, acts, k, c, ctxDone, s) && FromLoop(c, ctxDone, StepsOf(acts, k), e))
  {
    ResultsAgree(n, p, db, acts, h, k, Some(e));
    if c, d, s :| OwnRun(n, p, acts, k, c, d, s) && s.producer == Returned(Some(e)) {
      ErrorHasSource(c, d, StepsOf(acts, k), s, e);
      assert FromLoop(c, d, StepsOf(acts, k), e);
    }
  }

  /** The context's error on the cancel path, an error given to a worker, or that of Publish. */
  ghost predicate FromLoop(c: Config, ctxDone: bool, steps: seq<Action>, e: Error) {
    || (e == c.ctxErr && Abort in steps)
    || (e != Canceled && exists i :: Gives(c, ctxDone, steps, i, e))
    || Publish(Some(e)) in steps
  }

  // ----- The table -----

  /** The table that the insertions and truncations of a history have made of `db`. */
  function TableOfActs(db: Table, acts: seq<Act>): Table {
    if acts == [] then db
    else
      var before := acts[..|acts| - 1];
      match acts[|acts| - 1]
      case TruncateReturns(_, _, done) => if done then map[] else TableOfActs(db, before)
      case Step(k, AddReturns(w, _, stored)) =>
        if stored then WithRow(TableOfActs(db, before), StepsOf(before, k), w) else TableOfActs(db, before)
      case _ => TableOfActs(db, before)
  }

  lemma WritesOfStep(n: nat, p: Publisher, db: Table, acts: seq<Act>, h: System, k: nat, act: Action)
    requires n >= 1 && Past(Start(n, p, db), acts, h) && CanAct(h, Step(k, act))
    ensures After(h, Step(k, act)).db ==
            if act.AddReturns? && act.stored then WithRow(h.db, StepsOf(acts, k), act.w) else h.db
  {
    var c, s := h.calls[k].cfg, h.calls[k].st;
    PastSane(Start(n, p, db), acts, h);
    assert Loaded(h, k) == s;
    UpdatesAreRuns(n, p, db, acts, h, k);
    var d :| OwnRun(n, p, acts, k, c, d, s);
    RecordsOfActions(c, d, StepsOf(acts, k), s);
    StepWrites(c, StepsOf(acts, k), s, act);
  }

  lemma WritesOfAct(n: nat, p: Publisher, db: Table, acts: seq<Act>, h: System, a: Act)
    requires n >= 1 && Past(Start(n, p, db), acts, h) && CanAct(h, a) && h.db == TableOfActs(db, acts)
    ensures After(h, a).db == TableOfActs(db, acts + [a])
  {
    ActsSnoc(acts, a, 0);
    if a.Step? {
      WritesOfStep(n, p, db, acts, h, a.k, a.act);
    }
  }

  /**
   * Whatever the calls of a history do in between, its table is what the
   * insertions that landed have added since the last truncation that landed, each
   * with the record and the words its worker got, whether the calls succeeded or not.
   */
  lemma {:induction false} TableIsOfActs(n: nat, p: Publisher, db: Table, acts: seq<Act>, h: System)
    requires n >= 1 && Past(Start(n, p, db), acts, h)
    ensures h.db == TableOfActs(db, acts)
  {
    if acts == [] {
    } else {
      var i := |acts| - 1;
      var m := PastLast(Start(n, p, db), acts, h);
      TableIsOfActs(n, p, db, acts[..i], m);
      WritesOfAct(n, p, db, acts[..i], m, acts[i]);
      assert acts[..i] + [acts[i]] == acts;
    }
  }

  lemma {:induction false} HonestRunIsRun(c: Config, src: Source, s: State, acts: seq<Action>, t: State)
    requires HonestRun(c, src, s, acts, t)
    ensures Run(c, s, acts, t)
    decreases |acts|
  {
    if acts == [] {
    } else {
      HonestRunIsRun(c, src, Next(c, s, acts[0]), acts[1..], t);
    }
  }

  /** A complete run of its loop takes a call of an idle service from the door to its result. */
  lemma RunReachesCaller(c: Config, run: seq<Action>, t: State) returns (acts: seq<Act>, h: System)
    requires Run(c, Init(c, false), run, t) && t.producer.Returned?
    ensures Past(Start(c.concurrency, c.publisher, c.start), acts, h)
    ensures h.status == StatusIdle && h.calls == [Done(t.producer.err)] && h.db == t.db
  {
    var s := Start(c.concurrency, c.publisher, c.start);
    var p, m := CallStarts(c.concurrency, c.publisher, c.start, c.lastID, c.ctxErr);
    var q, n := RunInHistory(m, 0, run, t);
    h := After(n, Exit(0));
    assert [Exit(0)][1..] == [] && Past(h, [], h);
    PastConcat(m, q, n, [Exit(0)], h);
    PastConcat(s, p, m, q + [Exit(0)], h);
    acts := p + (q + [Exit(0)]);
  }

  /** Success is possible for the service too: an update of an idle service can finish its job and leave. */
  lemma UpdateCanSucceed(src: Source, n: nat, p: Publisher, db: Table, ctxErr: Error) returns (acts: seq<Act>,
                         h: System)
    requires Keyed(src) && n >= 1
    ensures Past(Start(n, p, db), acts, h) && h.status == StatusIdle && h.calls == [Done(None)]
    ensures ViewOf(h.db) == Sequential(src, ViewOf(db), src.last)
  {
    var c := Config(n, src.last, db, ctxErr, p);
    var run, t := CanSucceed(c, src);
    HonestRunIsRun(c, src, Init(c, false), run, t);
    acts, h := RunReachesCaller(c, run, t);
  }

  /** So is a silent loss: without the broker a cancelled update can tell its caller nil over a table with a gap. */
  lemma LossReachesCaller(src: Source, n: nat, p: Publisher, db: Table, id: int) returns (acts: seq<Act>, h: System)
    requires Keyed(src) && n >= 1 && !p.Broker? && Losable(Config(n, src.last, db, Canceled, p), src, id)
    ensures Past(Start(n, p, db), acts, h) && h.status == StatusIdle && h.calls == [Done(None)]
    ensures id !in h.db && id in Sequential(src, ViewOf(db), src.last)
  {
    var c := Config(n, src.last, db, Canceled, p);
    var run, t := LoseIt(c, src, id);
    HonestRunIsRun(c, src, Init(c, false), run, t);
    acts, h := RunReachesCaller(c, run, t);
    SequentialIs(src, ViewOf(db), src.last);
  }
}
