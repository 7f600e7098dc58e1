/** What holds over whole histories when the site and the normaliser answer consistently. */
module HistoryRefinement {
  import opened Common
  import opened Engine
  import opened EngineInvariant
  import opened EngineRefinement
  import opened History

  predicate HonestAct(src: Source, h: System, a: Act)
    requires CanAct(h, a)
  {
    match a
    case Step(k, act) => Honest(h.calls[k].cfg, src, Loaded(h, k), act)
    case LastIDReturns(_, r) => r.Ok? ==> r.value == src.last
    case _ => true
  }

  predicate HonestPast(src: Source, h: System, acts: seq<Act>, g: System)
    decreases |acts|
  {
    if acts == [] then h == g
    else
      && CanAct(h, acts[0]) && HonestAct(src, h, acts[0])
      && HonestPast(src, After(h, acts[0]), acts[1..], g)
  }

  ghost predicate AllSound(src: Source, h: System) {
    forall k :: 0 <= k < |h.calls| && h.calls[k].Updating? ==> Sound(h.calls[k].cfg, src, h.calls[k].st)
  }

  lemma StepAllSound(src: Source, h: System, a: Act)
    requires Keyed(src) && Sane(h) && AllSound(src, h) && CanAct(h, a) && HonestAct(src, h, a)
    ensures AllSound(src, After(h, a))
  {
    var g := After(h, a);
    if a.Step? {
      assert Loaded(h, a.k) == h.calls[a.k].st;
      StepSound(h.calls[a.k].cfg, src, h.calls[a.k].st, a.act);
    } else if a.IDsReturns? && a.failed.None? {
      InitSound(g.calls[a.k].cfg, src, a.ctxDone);
    }
    forall j | 0 <= j < |g.calls| && g.calls[j].Updating? ensures Sound(g.calls[j].cfg, src, g.calls[j].st) {
      assert (j < |h.calls| && g.calls[j] == h.calls[j]) || ((a.Step? || a.IDsReturns?) && j == a.k);
    }
  }

  lemma {:induction false} HonestPastSound(src: Source, h: System, acts: seq<Act>, g: System)
    requires Keyed(src) && Sane(h) && AllSound(src, h) && HonestPast(src, h, acts, g)
    ensures Sane(g) && AllSound(src, g)
    decreases |acts|
  {
    if acts == [] {
    } else {
      StepSane(h, acts[0]);
      StepAllSound(src, h, acts[0]);
      HonestPastSound(src, After(h, acts[0]), acts[1..], g);
    }
  }

  /**
   * Keys over whole histories, with failing, cancelled and interleaved calls and
   * any number of drops: no Add meets an existing key, and during an update the
   * table holds what it held at the start and what has been added since.
   */
  lemma KeysStayUnique(src: Source, n: nat, p: Publisher, db: Table, acts: seq<Act>, h: System, k: nat)
    requires Keyed(src) && n >= 1 && HonestPast(src, Start(n, p, db), acts, h)
    requires k < |h.calls| && h.calls[k].Updating?
    ensures var c, s := h.calls[k].cfg, h.calls[k].st;
            && (forall w :: 0 <= w < |s.workers| && s.workers[w].Adding? ==> s.workers[w].info.id !in h.db)
            && (forall id :: id in h.db <==> id in c.start || (id in s.place && InTable(s.place[id])))
  {
    HonestPastSound(src, Start(n, p, db), acts, h);
    var c, s := h.calls[k].cfg, h.calls[k].st;
    forall w | 0 <= w < |s.workers| && s.workers[w].Adding? ensures s.workers[w].info.id !in h.db {
      KeyIsFree(c, src, s, w);
    }
  }

  lemma PublishedIsComplete(c: Config, src: Source, s: State)
    requires Inv(c, s) && Sound(c, src, s) && c.publisher.Broker?
    requires Enabled(c, s, Publish(None)) && Keyed(src)
    ensures ViewOf(s.db) == Sequential(src, ViewOf(c.start), c.lastID)
  {
    StepInv(c, s, Publish(None));
    StepSound(c, src, s, Publish(None));
    CleanNil(c, src, Next(c, s, Publish(None)));
  }

  /** In any history: when "updated" goes out, the call that sends it has added everything. */
  lemma UpdatedMeansComplete(src: Source, n: nat, db: Table, acts: seq<Act>, h: System, k: nat)
    requires Keyed(src) && n >= 1 && HonestPast(src, Start(n, Broker, db), acts, h)
    requires CanAct(h, Step(k, Publish(None)))
    ensures After(h, Step(k, Publish(None))).log == h.log + [Updated(k, h.db)]
    ensures ViewOf(h.db) == Sequential(src, ViewOf(h.calls[k].cfg.start), h.calls[k].cfg.lastID)
  {
    HonestPastSound(src, Start(n, Broker, db), acts, h);
    PublisherStays(src, Start(n, Broker, db), acts, h);
    assert Loaded(h, k) == h.calls[k].st;
    PublishedIsComplete(h.calls[k].cfg, src, h.calls[k].st);
  }

  lemma {:induction false} PublisherStays(src: Source, h: System, acts: seq<Act>, g: System)
    requires HonestPast(src, h, acts, g)
    ensures g.publisher == h.publisher
    decreases |acts|
  {
    if acts == [] {
    } else {
      PublisherStays(src, After(h, acts[0]), acts[1..], g);
    }
  }

  // ----- Resumption -----

  predicate KeepsTable(a: Act) {
    a.TruncateReturns? ==> !a.done
  }

  /** The table is on its way from `v0` to the finished table. */
  ghost predicate OnTheWay(src: Source, v0: View, h: System) {
    && h.publisher.Broker?
    && Between(src, src.last, v0, ViewOf(h.db))
    && (forall k :: 0 <= k < |h.calls| ==> !h.calls[k].Announcing?)
    && (forall k :: 0 <= k < |h.calls| && h.calls[k].ReadingIDs? ==> h.calls[k].lastID == src.last)
    && (forall k :: 0 <= k < |h.calls| && h.calls[k].Updating? ==>
          h.calls[k].cfg.lastID == src.last && Between(src, src.last, v0, ViewOf(h.calls[k].cfg.start)))
    && (h.log != [] ==> ViewOf(h.db) == Sequential(src, v0, src.last))
  }

  lemma BetweenTransitive(src: Source, last: int, u: View, v: View, w: View)
    requires Between(src, last, u, v) && Between(src, last, v, w)
    ensures Between(src, last, u, w)
  {
  }

  /** Nothing lies beyond the finished table. */
  lemma FinishedStays(src: Source, last: int, v0: View, v: View, w: View)
    requires v == Sequential(src, v0, last) && Between(src, last, v0, w)
    requires forall id :: id in v ==> id in w && w[id] == v[id]
    ensures w == v
  {
    SequentialIs(src, v0, last);
    assert forall id :: id in v <==> id in w;
    assert forall id :: id in v ==> v[id] == w[id];
  }

  lemma TableGrows(c: Config, s: State, act: Action)
    requires Enabled(c, s, act)
    ensures forall id :: id in s.db ==> id in Next(c, s, act).db && Next(c, s, act).db[id] == s.db[id]
  {
    OnlyAddWrites(c, s, act);
    if act.AddReturns? {
      var u := s.workers[act.w];
      assert Next(c, s, act).db == if act.stored then s.db[u.info.id := Row(u.info.url, u.words)] else s.db;
    }
  }

  lemma EngineOnTheWay(src: Source, v0: View, h: System, k: nat, act: Action)
    requires Keyed(src) && Sane(h) && AllSound(src, h) && OnTheWay(src, v0, h)
    requires CanAct(h, Step(k, act)) && HonestAct(src, h, Step(k, act))
    ensures var g := After(h, Step(k, act));
            && Between(src, src.last, v0, ViewOf(g.db))
            && (g.log != [] ==> ViewOf(g.db) == Sequential(src, v0, src.last))
  {
    var c, s, g := h.calls[k].cfg, h.calls[k].st, After(h, Step(k, act));
    assert Loaded(h, k) == s;
    var t := Next(c, s, act);
    StepInv(c, s, act);
    StepSound(c, src, s, act);
    PartialUpdate(c, src, t);
    BetweenTransitive(src, src.last, v0, ViewOf(c.start), ViewOf(t.db));
    if h.log != [] {
      TableGrows(c, s, act);
      FinishedStays(src, src.last, v0, ViewOf(s.db), ViewOf(t.db));
    } else if act == Publish(None) {
      PublishedIsComplete(c, src, s);
      FinishFromPartial(src, src.last, v0, ViewOf(c.start));
    }
  }

  lemma OtherOnTheWay(src: Source, v0: View, h: System, a: Act)
    requires OnTheWay(src, v0, h) && CanAct(h, a) && HonestAct(src, h, a) && KeepsTable(a) && !a.Step?
    ensures OnTheWay(src, v0, After(h, a))
  {
    var g := After(h, a);
    assert g.db == h.db && g.log == h.log;
  }

  lemma StepOnTheWay(src: Source, v0: View, h: System, a: Act)
    requires Keyed(src) && Sane(h) && AllSound(src, h) && OnTheWay(src, v0, h)
    requires CanAct(h, a) && HonestAct(src, h, a) && KeepsTable(a)
    ensures OnTheWay(src, v0, After(h, a))
  {
    if a.Step? {
      EngineOnTheWay(src, v0, h, a.k, a.act);
    } else {
      OtherOnTheWay(src, v0, h, a);
    }
  }

  lemma {:induction false} PastOnTheWay(src: Source, v0: View, h: System, acts: seq<Act>, g: System)
    requires Keyed(src) && Sane(h) && AllSound(src, h) && OnTheWay(src, v0, h)
    requires HonestPast(src, h, acts, g) && forall i :: 0 <= i < |acts| ==> KeepsTable(acts[i])
    ensures Sane(g) && AllSound(src, g) && OnTheWay(src, v0, g)
    decreases |acts|
  {
    if acts == [] {
    } else {
      StepSane(h, acts[0]);
      StepAllSound(src, h, acts[0]);
      StepOnTheWay(src, v0, h, acts[0]);
      assert forall i :: 0 <= i < |acts[1..]| ==> acts[1..][i] == acts[i + 1];
      PastOnTheWay(src, v0, After(h, acts[0]), acts[1..], g);
    }
  }

  /**
   * Resumption.  Take any history without a drop, with any number of updates that
   * failed, were cancelled or were turned away.  As soon as one has published
   * "updated", the table is what a single undisturbed update would have made of
   * the first table, it stays so, and no worker ever gets to an Add again.
   */
  lemma Resumption(src: Source, n: nat, db: Table, acts: seq<Act>, h: System)
    requires Keyed(src) && n >= 1 && HonestPast(src, Start(n, Broker, db), acts, h)
    requires forall i :: 0 <= i < |acts| ==> KeepsTable(acts[i])
    requires h.log != []
    ensures ViewOf(h.db) == Sequential(src, ViewOf(db), src.last)
    ensures forall k, w :: 0 <= k < |h.calls| && h.calls[k].Updating? && 0 <= w < |h.calls[k].st.workers| ==>
              !h.calls[k].st.workers[w].Adding?
  {
    var v0 := ViewOf(db);
    PastOnTheWay(src, v0, Start(n, Broker, db), acts, h);
    forall k, w | 0 <= k < |h.calls| && h.calls[k].Updating? && 0 <= w < |h.calls[k].st.workers|
      ensures !h.calls[k].st.workers[w].Adding?
    {
      NoAddWhenFinished(src, v0, h, k, w);
    }
  }

  lemma {:induction false} HonestPastIsPast(src: Source, h: System, acts: seq<Act>, g: System)
    requires HonestPast(src, h, acts, g)
    ensures Past(h, acts, g)
    decreases |acts|
  {
    if acts == [] {
    } else {
      HonestPastIsPast(src, After(h, acts[0]), acts[1..], g);
    }
  }

  /** The same, said with the result the caller of `Update` sees. */
  lemma ResumptionAfterNil(src: Source, n: nat, db: Table, acts: seq<Act>, h: System, k: nat)
    requires Keyed(src) && n >= 1 && HonestPast(src, Start(n, Broker, db), acts, h)
    requires forall i :: 0 <= i < |acts| ==> KeepsTable(acts[i])
    requires k < |h.calls| && NilResult(h.calls[k])
    ensures ViewOf(h.db) == Sequential(src, ViewOf(db), src.last)
  {
    HonestPastIsPast(src, Start(n, Broker, db), acts, h);
    NilIffAnnounced(n, Broker, db, acts, h, k);
    Resumption(src, n, db, acts, h);
  }

  lemma NoAddWhenFinished(src: Source, v0: View, h: System, k: nat, w: nat)
    requires Keyed(src) && Sane(h) && AllSound(src, h) && OnTheWay(src, v0, h) && h.log != []
    requires k < |h.calls| && h.calls[k].Updating? && w < |h.calls[k].st.workers|
    ensures !h.calls[k].st.workers[w].Adding?
  {
    var c, s := h.calls[k].cfg, h.calls[k].st;
    SequentialIs(src, v0, src.last);
    assert WorkerSound(c, src, s, s.workers[w]);
    if s.workers[w].Adding? {
      KeyIsFree(c, src, s, w);
    }
  }

  /** Without a publication: however the calls ended, what they added is right. */
  lemma PartialHistory(src: Source, n: nat, db: Table, acts: seq<Act>, h: System)
    requires Keyed(src) && n >= 1 && HonestPast(src, Start(n, Broker, db), acts, h)
    requires forall i :: 0 <= i < |acts| ==> KeepsTable(acts[i])
    ensures Between(src, src.last, ViewOf(db), ViewOf(h.db))
    ensures Sequential(src, ViewOf(h.db), src.last) == Sequential(src, ViewOf(db), src.last)
  {
    PastOnTheWay(src, ViewOf(db), Start(n, Broker, db), acts, h);
    FinishFromPartial(src, src.last, ViewOf(db), ViewOf(h.db));
  }

  // ----- Words in the table -----

  ghost predicate CleanTable(t: Table) {
    forall id :: id in t ==> NoDup(t[id].words)
  }

  lemma StepKeepsClean(src: Source, h: System, a: Act)
    requires Sane(h) && AllSound(src, h) && CleanTable(h.db) && CanAct(h, a)
    ensures CleanTable(After(h, a).db)
  {
    if a.Step? {
      var c, s := h.calls[a.k].cfg, h.calls[a.k].st;
      assert Loaded(h, a.k) == s;
      OnlyAddWrites(c, s, a.act);
      if a.act.AddReturns? {
        var u := s.workers[a.act.w];
        assert WorkerSound(c, src, s, u);
        assert Next(c, s, a.act).db == if a.act.stored then s.db[u.info.id := Row(u.info.url, u.words)] else s.db;
      }
    }
  }

  /** No row ever holds a word twice. */
  lemma {:induction false} RowsStayClean(src: Source, h: System, acts: seq<Act>, g: System)
    requires Keyed(src) && Sane(h) && AllSound(src, h) && CleanTable(h.db) && HonestPast(src, h, acts, g)
    ensures CleanTable(g.db)
    decreases |acts|
  {
    if acts == [] {
    } else {
      StepSane(h, acts[0]);
      StepAllSound(src, h, acts[0]);
      StepKeepsClean(src, h, acts[0]);
      RowsStayClean(src, After(h, acts[0]), acts[1..], g);
    }
  }
}
