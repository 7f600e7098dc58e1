/** The table after a run, from the actions alone. */
module EngineRows {
  import opened Common
  import opened Engine
  import opened EngineInvariant
  import opened EngineTrace

  /** The record that worker `w` got last. */
  function LastGot(acts: seq<Action>, w: nat): Option<Info> {
    if acts == [] then None
    else
      match acts[|acts| - 1]
      case GetReturns(v, Ok(info)) => if v == w then Some(info) else LastGot(acts[..|acts| - 1], w)
      case _ => LastGot(acts[..|acts| - 1], w)
  }

  /** The words that worker `w` got last. */
  function LastNormed(acts: seq<Action>, w: nat): Option<seq<string>> {
    if acts == [] then None
    else
      match acts[|acts| - 1]
      case NormReturns(v, Ok(words)) => if v == w then Some(words) else LastNormed(acts[..|acts| - 1], w)
      case _ => LastNormed(acts[..|acts| - 1], w)
  }

  /** `t` with the record and the words that worker `w` got last, under the record's own number. */
  function WithRow(t: Table, before: seq<Action>, w: nat): Table {
    match (LastGot(before, w), LastNormed(before, w))
    case (Some(info), Some(words)) => t[info.id := Row(info.url, words)]
    case _ => t
  }

  /** The table that the insertions of a run have made of `t`. */
  function TableOfActions(t: Table, acts: seq<Action>): Table {
    if acts == [] then t
    else
      var before, a := acts[..|acts| - 1], acts[|acts| - 1];
      if a.AddReturns? && a.stored then WithRow(TableOfActions(t, before), before, a.w) else TableOfActions(t, before)
  }

  predicate RecordMatches(acts: seq<Action>, w: nat, u: Worker) {
    && (u.Norming? || u.Adding? ==> LastGot(acts, w) == Some(u.info))
    && (u.Adding? ==> LastNormed(acts, w) == Some(u.words))
  }

  ghost predicate RecordsMatch(acts: seq<Action>, s: State) {
    forall w: nat :: w < |s.workers| ==> RecordMatches(acts, w, s.workers[w])
  }

  lemma MovedRecord(c: Config, acts: seq<Action>, s: State, a: Action)
    requires Enabled(c, s, a) && !OfProducer(a) && RecordMatches(acts, a.w, s.workers[a.w])
    ensures a.w < |Next(c, s, a).workers| && RecordMatches(acts + [a], a.w, Next(c, s, a).workers[a.w])
  {
    SnocParts(acts, a);
    var u, v := s.workers[a.w], Next(c, s, a).workers[a.w];
    if a.GetReturns? && a.got.Ok? {
      assert v == Norming(u.id, a.got.value);
    } else if a.NormReturns? && a.normed.Ok? {
      assert v == Adding(u.id, u.info, a.normed.value);
    } else {
      assert !v.Norming? && !v.Adding?;
    }
  }

  lemma StepRecords(c: Config, acts: seq<Action>, s: State, a: Action)
    requires RecordsMatch(acts, s) && Enabled(c, s, a)
    ensures RecordsMatch(acts + [a], Next(c, s, a))
  {
    var t := Next(c, s, a);
    SnocParts(acts, a);
    if OfProducer(a) {
      ProducerMoves(c, s, a);
    } else {
      MovedRecord(c, acts, s, a);
      WorkerErrors(c, s, a);
    }
    forall w: nat | w < |t.workers| ensures RecordMatches(acts + [a], w, t.workers[w]) {
      assert RecordMatches(acts, w, s.workers[w]);
    }
  }

  lemma {:induction false} RecordsOfActions(c: Config, ctxDone: bool, acts: seq<Action>, s: State)
    requires Run(c, Init(c, ctxDone), acts, s)
    ensures RecordsMatch(acts, s)
  {
    if acts == [] {
    } else {
      var n := |acts| - 1;
      var m := RunLast(c, Init(c, ctxDone), acts, s);
      RecordsOfActions(c, ctxDone, acts[..n], m);
      StepRecords(c, acts[..n], m, acts[n]);
      assert acts[..n] + [acts[n]] == acts;
    }
  }

  lemma AddWrites(c: Config, acts: seq<Action>, s: State, a: Action)
    requires Enabled(c, s, a) && a.AddReturns? && RecordMatches(acts, a.w, s.workers[a.w])
    ensures Next(c, s, a).db == if a.stored then WithRow(s.db, acts, a.w) else s.db
  {
    var u := s.workers[a.w];
    assert Next(c, s, a).db == if a.stored then s.db[u.info.id := Row(u.info.url, u.words)] else s.db;
  }

  /** An insertion that lands puts in the row its worker has got together, and nothing else writes. */
  lemma StepWrites(c: Config, acts: seq<Action>, s: State, a: Action)
    requires RecordsMatch(acts, s) && Enabled(c, s, a)
    ensures Next(c, s, a).db == if a.AddReturns? && a.stored then WithRow(s.db, acts, a.w) else s.db
  {
    if a.AddReturns? {
      AddWrites(c, acts, s, a);
    } else {
      OnlyAddWrites(c, s, a);
    }
  }

  /**
   * Every row of the table was there before or is what one worker got from the site
   * and the normaliser, stored under the number on the page, and every insertion
   * that landed is in the table: for any site, honest or not.
   */
  lemma {:induction false} TableIsOfActions(c: Config, ctxDone: bool, acts: seq<Action>, s: State)
    requires Run(c, Init(c, ctxDone), acts, s)
    ensures s.db == TableOfActions(c.start, acts)
  {
    if acts == [] {
    } else {
      var n := |acts| - 1;
      var m := RunLast(c, Init(c, ctxDone), acts, s);
      TableIsOfActions(c, ctxDone, acts[..n], m);
      RecordsOfActions(c, ctxDone, acts[..n], m);
      StepWrites(c, acts[..n], m, acts[n]);
    }
  }
}
