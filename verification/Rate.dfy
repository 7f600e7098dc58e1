/** The rate limit: one tick of a ticker per request. Times are in nanoseconds. */
module Rate {
  import opened Common

  const SECOND: nat := 1_000_000_000

  /** Go's integer division of one second, with the special case for zero. */
  method TickInterval(rps: int) returns (interval: nat)
    requires rps > 0
    ensures interval == Interval(rps)
  {
    interval := SECOND / rps;
    if interval <= 0 {
      interval := SECOND;
    }
  }

  function Interval(rps: int): (i: nat)
    requires rps > 0
    ensures i > 0
  {
    if rps <= SECOND then SlotWidth(rps) else SECOND
  }

  function SlotWidth(rps: int): (i: nat)
    requires 0 < rps <= SECOND
    ensures i > 0 && i * rps <= SECOND < (i + 1) * rps
  {
    QuotientBounds(SECOND, rps);
    SECOND / rps
  }

  lemma QuotientBounds(n: nat, d: nat)
    requires 0 < d
    ensures (n / d) * d <= n < (n / d + 1) * d
    ensures d <= n ==> n / d > 0
  {
  }

  /** The ticker puts a tick into its one-slot buffer, or a request takes one out. */
  datatype Mark = Tick(at: nat) | Admit(at: nat)

  /**
   * A possible course of events after `n` ticks at time `now`: tick `n` fires at
   * `n * interval` and is lost if the slot is full; a request passes only by
   * emptying the slot.
   */
  predicate Possible(interval: nat, n: nat, full: bool, now: nat, marks: seq<Mark>)
    decreases |marks|
  {
    if marks == [] then true
    else
      match marks[0]
      case Tick(at) =>
        now <= at == (n + 1) * interval && Possible(interval, n + 1, true, at, marks[1..])
      case Admit(at) =>
        full && now <= at <= (n + 1) * interval && Possible(interval, n, false, at, marks[1..])
  }

  function Admitted(marks: seq<Mark>, lo: nat, hi: nat): nat {
    if marks == [] then 0
    else (if marks[0].Admit? && lo <= marks[0].at <= hi then 1 else 0) + Admitted(marks[1..], lo, hi)
  }

  lemma {:induction false} NoneAfter(interval: nat, n: nat, full: bool, now: nat, marks: seq<Mark>, lo: nat, hi: nat)
    requires Possible(interval, n, full, now, marks) && hi < now
    ensures Admitted(marks, lo, hi) == 0
    decreases |marks|
  {
    if marks == [] {
    } else {
      var m := marks[0];
      NoneAfter(interval, if m.Tick? then n + 1 else n, m.Tick?, m.at, marks[1..], lo, hi);
    }
  }

  lemma AtMostQuotient(a: nat, d: nat, b: nat)
    requires d > 0 && a * d <= b
    ensures a <= b / d
  {
    QuotientBounds(b, d);
    if b / d < a {
      assert (b / d + 1) * d <= a * d by { MulMonotone(b / d + 1, a, d); }
    }
  }

  lemma QuotientBelow(b: nat, d: nat, a: nat)
    requires d > 0 && b < a * d
    ensures b / d < a
  {
    QuotientBounds(b, d);
    if a <= b / d { MulMonotone(a, b / d, d); }
  }

  lemma MulMonotone(a: nat, b: nat, d: nat)
    requires a <= b
    ensures a * d <= b * d
  {
  }

  /** From any moment on, requests up to `hi` use up the waiting tick and those still to come. */
  lemma {:induction false} TicksPayForRequests(interval: nat, n: nat, full: bool, now: nat, marks: seq<Mark>,
                                               lo: nat, hi: nat)
    requires interval > 0 && Possible(interval, n, full, now, marks)
    ensures Admitted(marks, lo, hi) <= (if full then 1 else 0) + (if n < hi / interval then hi / interval - n else 0)
    decreases |marks|
  {
    if marks == [] {
    } else {
      var m, rest := marks[0], marks[1..];
      if m.Tick? {
        if m.at <= hi {
          AtMostQuotient(n + 1, interval, hi);
          TicksPayForRequests(interval, n + 1, true, m.at, rest, lo, hi);
        } else {
          NoneAfter(interval, n + 1, true, m.at, rest, lo, hi);
        }
      } else {
        TicksPayForRequests(interval, n, false, m.at, rest, lo, hi);
      }
    }
  }

  /** Up to time `t` from the start at most t / interval requests pass. */
  lemma AdmittedFromStart(interval: nat, marks: seq<Mark>, t: nat)
    requires interval > 0 && Possible(interval, 0, false, 0, marks)
    ensures Admitted(marks, 0, t) <= t / interval
  {
    TicksPayForRequests(interval, 0, false, 0, marks, 0, t);
  }

  lemma WindowQuotient(n: nat, interval: nat, lo: nat, hi: nat)
    requires interval > 0 && lo <= hi && lo <= (n + 1) * interval
    ensures hi / interval <= n + (hi - lo) / interval + 1
  {
    var q := (hi - lo) / interval;
    QuotientBounds(hi - lo, interval);
    QuotientBounds(hi, interval);
    assert hi < (n + q + 2) * interval;
    if hi / interval >= n + q + 2 {
      MulMonotone(n + q + 2, hi / interval, interval);
    }
  }

  /** The window begins before the next tick. */
  lemma AdmittedSoon(interval: nat, n: nat, full: bool, now: nat, marks: seq<Mark>, lo: nat, hi: nat)
    requires interval > 0 && lo <= hi && Possible(interval, n, full, now, marks)
    requires lo <= (n + 1) * interval
    ensures Admitted(marks, lo, hi) <= (hi - lo) / interval + 2
  {
    TicksPayForRequests(interval, n, full, now, marks, lo, hi);
    WindowQuotient(n, interval, lo, hi);
    AddUp(Admitted(marks, lo, hi), if full then 1 else 0, n, hi / interval, (hi - lo) / interval);
  }

  /** One tick waiting, `have - n` still to come, of which `q + 1` fit in the window. */
  lemma AddUp(admitted: nat, waiting: nat, n: nat, have: nat, q: nat)
    requires waiting <= 1 && admitted <= waiting + (if n < have then have - n else 0) && have <= n + q + 1
    ensures admitted <= q + 2
  {
  }

  /** `most` is what the window allows, whenever it begins. */
  lemma {:induction false} AdmittedAfter(interval: nat, n: nat, full: bool, now: nat, marks: seq<Mark>, lo: nat,
                                         hi: nat, most: nat)
    requires interval > 0 && lo <= hi && Possible(interval, n, full, now, marks)
    requires most == (hi - lo) / interval + 2
    ensures Admitted(marks, lo, hi) <= most
    decreases |marks|
  {
    if lo <= (n + 1) * interval {
      AdmittedSoon(interval, n, full, now, marks, lo, hi);
    } else if marks == [] {
    } else {
      var m := marks[0];
      assert m.at < lo;
      AdmittedAfter(interval, if m.Tick? then n + 1 else n, m.Tick?, m.at, marks[1..], lo, hi, most);
    }
  }

  /** In any window of length T at most T / interval + 2 requests pass. */
  lemma AdmittedInWindow(interval: nat, marks: seq<Mark>, lo: nat, hi: nat)
    requires interval > 0 && lo <= hi && Possible(interval, 0, false, 0, marks)
    ensures Admitted(marks, lo, hi) <= (hi - lo) / interval + 2
  {
    AdmittedAfter(interval, 0, false, 0, marks, lo, hi, (hi - lo) / interval + 2);
  }

  /** Every tick from number `n + 1` to number `m` is used at once. */
  function BusyMarks(interval: nat, n: nat, m: nat): seq<Mark>
    requires n <= m
    decreases m - n
  {
    if n == m then []
    else [Tick((n + 1) * interval), Admit((n + 1) * interval)] + BusyMarks(interval, n + 1, m)
  }

  lemma {:induction false} BusyIsPossible(interval: nat, n: nat, m: nat, now: nat, lo: nat, hi: nat)
    requires n <= m && m * interval <= hi && lo <= (n + 1) * interval && now <= (n + 1) * interval
    ensures Possible(interval, n, false, now, BusyMarks(interval, n, m))
    ensures Admitted(BusyMarks(interval, n, m), lo, hi) == m - n
    decreases m - n
  {
    if n == m {
    } else {
      var at, rest := (n + 1) * interval, BusyMarks(interval, n + 1, m);
      MulMonotone(n + 1, m, interval);
      MulMonotone(n + 1, n + 2, interval);
      BusyIsPossible(interval, n + 1, m, at, lo, hi);
      var marks := BusyMarks(interval, n, m);
      assert marks[1..] == [Admit(at)] + rest && marks[1..][1..] == rest;
      assert Possible(interval, n + 1, true, at, marks[1..]);
      assert Admitted(marks[1..], lo, hi) == 1 + Admitted(rest, lo, hi);
    }
  }

  /**
   * The bound is reached for every interval and every length: a tick saved from
   * before the window, and every tick of the window from its first instant on.
   */
  lemma WindowBoundIsTight(interval: nat, length: nat) returns (marks: seq<Mark>)
    requires interval > 0
    ensures Possible(interval, 0, false, 0, marks)
    ensures Admitted(marks, 2 * interval, 2 * interval + length) == length / interval + 2
  {
    var lo, hi, m := 2 * interval, 2 * interval + length, length / interval + 2;
    QuotientBounds(length, interval);
    var busy := BusyMarks(interval, 1, m);
    BusyIsPossible(interval, 1, m, lo, lo, hi);
    var saved := [Admit(lo)] + busy;
    marks := [Tick(interval)] + saved;
    assert saved[1..] == busy && marks[1..] == saved;
    assert Possible(interval, 1, true, interval, saved);
    assert Admitted(saved, lo, hi) == 1 + Admitted(busy, lo, hi);
  }

  /** In no window of one second do more than `rps` requests pass, whatever arrives. */
  ghost predicate KeepsRate(rps: int)
    requires rps > 0
  {
    forall marks, lo: nat, hi: nat ::
      hi == lo + SECOND && Possible(Interval(rps), 0, false, 0, marks) ==> Admitted(marks, lo, hi) <= rps
  }

  /**
   * No rate the clock can express is kept: some second lets at least two requests
   * too many through. Only above a billion, where the interval is a whole second,
   * is the configured number a bound.
   */
  lemma KeepsRateIff(rps: int)
    requires rps > 0
    ensures KeepsRate(rps) <==> rps > SECOND
  {
    var i := Interval(rps);
    if rps <= SECOND {
      RateWithinTwice(rps);
      var marks := WindowBoundIsTight(i, SECOND);
      var lo: nat, hi: nat := 2 * i, 2 * i + SECOND;
      assert Admitted(marks, lo, hi) > rps;
    } else {
      forall marks, lo: nat, hi: nat | hi == lo + SECOND && Possible(i, 0, false, 0, marks)
        ensures Admitted(marks, lo, hi) <= rps
      {
        AdmittedInWindow(i, marks, lo, hi);
      }
    }
  }

  /** At most `rps` requests pass in the first second, before a tick can have been saved. */
  ghost predicate KeepsFirstSecond(rps: int)
    requires rps > 0
  {
    forall marks :: Possible(Interval(rps), 0, false, 0, marks) ==> Admitted(marks, 0, SECOND) <= rps
  }

  /**
   * In the first second the rate is kept exactly when cutting the interval down to
   * whole nanoseconds does not let one more tick into it.
   */
  lemma FirstSecondIff(rps: int)
    requires rps > 0
    ensures KeepsFirstSecond(rps) <==> SECOND < (rps + 1) * Interval(rps)
  {
    var i := Interval(rps);
    var most := SECOND / i;
    QuotientBounds(SECOND, i);
    if SECOND < (rps + 1) * i {
      forall marks | Possible(i, 0, false, 0, marks) ensures Admitted(marks, 0, SECOND) <= rps {
        AdmittedFromStart(i, marks, SECOND);
        if rps + 1 <= most { MulMonotone(rps + 1, most, i); }
      }
    } else {
      AtMostQuotient(rps + 1, i, SECOND);
      BusyIsPossible(i, 0, most, 0, 0, SECOND);
    }
  }

  /** Up to a billion the ticks of a second lie between the configured rate and its double. */
  lemma RateWithinTwice(rps: int)
    requires 0 < rps <= SECOND
    ensures rps <= SECOND / Interval(rps) < 2 * rps
  {
    var i := SlotWidth(rps);
    AtMostQuotient(rps, i, SECOND);
    MulMonotone(i + 1, 2 * i, rps);
    assert (2 * i) * rps == (2 * rps) * i;
    QuotientBelow(SECOND, i, 2 * rps);
  }

  /**
   * Beyond that the special case slows everything down: one request in the first
   * second, and never more than three in any second.
   */
  lemma RateBeyondClock(rps: int, marks: seq<Mark>, lo: nat)
    requires rps > SECOND && Possible(Interval(rps), 0, false, 0, marks)
    ensures Admitted(marks, 0, SECOND) <= 1
    ensures Admitted(marks, lo, lo + SECOND) <= 3
  {
    AdmittedFromStart(SECOND, marks, SECOND);
    AdmittedInWindow(SECOND, marks, lo, lo + SECOND);
  }

  lemma {:induction false} PossibleSnoc(interval: nat, n: nat, full: bool, now: nat, marks: seq<Mark>, m: Mark)
    requires Possible(interval, n, full, now, marks)
    requires var (n', full', now') := EndOf(n, full, now, marks);
             Possible(interval, n', full', now', [m])
    ensures Possible(interval, n, full, now, marks + [m])
    decreases |marks|
  {
    if marks == [] {
      assert marks + [m] == [m];
    } else {
      var k := marks[0];
      PossibleSnoc(interval, if k.Tick? then n + 1 else n, k.Tick?, k.at, marks[1..], m);
      assert (marks + [m])[0] == k && (marks + [m])[1..] == marks[1..] + [m];
    }
  }

  /** Ticks fired, slot and time after `marks`. */
  function EndOf(n: nat, full: bool, now: nat, marks: seq<Mark>): (nat, bool, nat)
    decreases |marks|
  {
    if marks == [] then (n, full, now)
    else EndOf(if marks[0].Tick? then n + 1 else n, marks[0].Tick?, marks[0].at, marks[1..])
  }

  lemma {:induction false} EndOfSnoc(n: nat, full: bool, now: nat, marks: seq<Mark>, m: Mark)
    ensures EndOf(n, full, now, marks + [m]) ==
            (EndOf(n, full, now, marks).0 + (if m.Tick? then 1 else 0), m.Tick?, m.at)
    decreases |marks|
  {
    if marks == [] {
      assert marks + [m] == [m];
    } else {
      var k := marks[0];
      EndOfSnoc(if k.Tick? then n + 1 else n, k.Tick?, k.at, marks[1..], m);
      assert (marks + [m])[0] == k && (marks + [m])[1..] == marks[1..] + [m];
    }
  }

  /**
   * The ticker and its slot, as the handler sees them. What has happened so far is
   * one of the courses of events the bounds are about.
   */
  class Ticker {
    const interval: nat
    var full: bool
    ghost var ticks: nat
    ghost var now: nat
    ghost var marks: seq<Mark>

    ghost predicate Valid()
      reads this
    {
      && interval > 0
      && Possible(interval, 0, false, 0, marks)
      && EndOf(0, false, 0, marks) == (ticks, full, now)
      && now <= (ticks + 1) * interval
    }

    constructor (rps: int)
      requires rps > 0
      ensures Valid() && interval == Interval(rps) && marks == []
    {
      var i := TickInterval(rps);
      interval := i;
      full := false;
      ticks, now, marks := 0, 0, [];
    }

    /** The ticker fires when its next tick is due: the tick is dropped if one is waiting. */
    method Fire()
      requires Valid()
      modifies this
      ensures Valid() && marks == old(marks) + [Tick((old(ticks) + 1) * interval)] && full
    {
      full := true;
      ghost var m := Tick((ticks + 1) * interval);
      PossibleSnoc(interval, 0, false, 0, marks, m);
      EndOfSnoc(0, false, 0, marks, m);
      MulMonotone(ticks + 1, ticks + 2, interval);
      ticks, now, marks := ticks + 1, m.at, marks + [m];
    }

    /** A request receives the tick it has been waiting for, before the next one is due. */
    method Receive(ghost at: nat)
      requires Valid() && full && now <= at <= (ticks + 1) * interval
      modifies this
      ensures Valid() && marks == old(marks) + [Admit(at)] && !full
    {
      full := false;
      ghost var m := Admit(at);
      PossibleSnoc(interval, 0, false, 0, marks, m);
      EndOfSnoc(0, false, 0, marks, m);
      now, marks := at, marks + [m];
    }

    /** Whatever the handler and the ticker have done, the window bound holds of it. */
    lemma Bounded(lo: nat, hi: nat)
      requires Valid() && lo <= hi
      ensures Admitted(marks, lo, hi) <= (hi - lo) / interval + 2
    {
      AdmittedInWindow(interval, marks, lo, hi);
    }
  }
}
