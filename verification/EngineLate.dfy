/** A ready select may take either arm: ids handed out although the context is done. */
module EngineLate {
  import opened Common
  import opened Engine
  import opened EngineInvariant
  import opened EngineTermination
  import opened EngineTrace

  /** The context is done; the first `m` workers have found out and wait to say so, the others are idle. */
  ghost predicate SomeLate(c: Config, s: State, m: nat) {
    && s.producer.Feeding? && s.ctxDone && m <= |s.workers|
    && (forall i :: 0 <= i < m ==> s.workers[i].Sending?)
    && (forall i :: m <= i < |s.workers| ==> s.workers[i].Idle?)
  }

  /** The producer hands the next id to worker `m` although the context is done. */
  lemma LateNext(c: Config, s: State, m: nat) returns (acts: seq<Action>, t: State)
    requires Inv(c, s) && SomeLate(c, s, m) && m < |s.workers| && s.next <= c.lastID && s.next !in c.start
    ensures Faultless(c, acts) && Run(c, s, acts, t) && Inv(c, t) && SomeLate(c, t, m + 1)
    ensures t.next == s.next + 1 && |FailedIds(t)| == |FailedIds(s)| + 1
  {
    var a, b := Dispatch(m), Check(m);
    var n := Next(c, s, a);
    StepInv(c, s, a);
    assert n.workers == s.workers[m := Received(s.next)];
    t := Next(c, n, b);
    assert t.workers == s.workers[m := Sending(s.next, c.ctxErr, true)];
    acts := [a, b];
    assert acts[1..] == [b] && [b][1..] == [];
    assert Run(c, t, [], t);
    assert Run(c, n, [b], t);
    StepFailures(c, s, a);
    StepFailures(c, n, b);
    StepInv(c, n, b);
  }

  lemma LateSkip(c: Config, s: State, m: nat) returns (acts: seq<Action>, t: State)
    requires Inv(c, s) && SomeLate(c, s, m) && s.next <= c.lastID && s.next in c.start
    ensures Faultless(c, acts) && Run(c, s, acts, t) && Inv(c, t) && SomeLate(c, t, m)
    ensures t.next == s.next + 1 && |FailedIds(t)| == |FailedIds(s)|
  {
    acts, t := [Skip], Next(c, s, Skip);
    assert [Skip][1..] == [] && Run(c, t, [], t);
    StepFailures(c, s, Skip);
    StepInv(c, s, Skip);
  }

  /** The producer gets past one id: a worker more is late if the id is missing. */
  lemma LateStep(c: Config, s: State, m: nat) returns (acts: seq<Action>, t: State, k: nat)
    requires Inv(c, s) && SomeLate(c, s, m) && m < |s.workers| && s.next <= c.lastID
    ensures Faultless(c, acts) && Run(c, s, acts, t) && Inv(c, t) && SomeLate(c, t, k) && t.next == s.next + 1
    ensures k - m == |FailedIds(t)| - |FailedIds(s)| == |c.MissingFrom(s.next)| - |c.MissingFrom(t.next)|
  {
    MissingSplit(c, s.next);
    if s.next in c.start {
      acts, t := LateSkip(c, s, m);
      k := m;
    } else {
      acts, t := LateNext(c, s, m);
      k := m + 1;
    }
  }

  lemma {:induction false} AllLate(c: Config, s: State, m: nat) returns (acts: seq<Action>, t: State)
    requires Inv(c, s) && SomeLate(c, s, m)
    ensures Run(c, s, acts, t) && Faultless(c, acts)
    ensures |FailedIds(t)| == |FailedIds(s)| + Min(c.concurrency - m, |c.MissingFrom(s.next)|)
    decreases c.lastID - s.next
  {
    if s.next > c.lastID {
      acts, t := [], s;
      assert c.MissingFrom(s.next) == {};
    } else if m == c.concurrency {
      acts, t := [], s;
    } else {
      var p, n, k := LateStep(c, s, m);
      var q;
      q, t := AllLate(c, n, k);
      RunConcat(c, s, p, n, q, t);
      acts := p + q;
    }
  }

  /**
   * A ready select may take either arm: even when the context is done before the
   * call, as many ids as there are workers can still be handed out, each worker
   * failing one.  The bound on late checks is reached.
   */
  lemma LateChecksReached(c: Config) returns (acts: seq<Action>, t: State)
    requires c.concurrency >= 1
    ensures Run(c, Init(c, true), acts, t) && Faults(c, acts) == 0
    ensures LateChecks(true, acts) == Min(c.concurrency, |c.MissingFrom(1)|)
  {
    var s := Init(c, true);
    InitInv(c, true);
    assert FailedIds(s) == {};
    acts, t := AllLate(c, s, 0);
    NoFaults(c, acts);
    FailuresCounted(c, true, acts, t);
  }
}
