/** The concurrency limit: a buffered channel used as a counting semaphore. */
module Semaphore {
  import opened Common

  /**
   * `tokens` is what lies in the channel. A request that got in is first inside
   * the handler behind the limit and then about to take its token back.
   */
  datatype Limiter = Limiter(
    limit: int, tokens: int, inside: int, releasing: int, arrivals: nat, accepted: nat, refused: nat)

  datatype Event = Arrive | HandlerReturns | Release

  function New(limit: int): Limiter {
    Limiter(limit, 0, 0, 0, 0, 0, 0)
  }

  /** A limit of zero or less switches the semaphore off. */
  predicate Unlimited(l: Limiter) {
    l.limit <= 0
  }

  predicate CanHappen(l: Limiter, e: Event) {
    match e
    case Arrive => true
    case HandlerReturns => l.inside > 0
    case Release => l.releasing > 0
  }

  /** Receiving from an empty channel would block. */
  predicate Blocks(l: Limiter, e: Event) {
    e.Release? && !Unlimited(l) && l.tokens == 0
  }

  function Next(l: Limiter, e: Event): Limiter
    requires CanHappen(l, e)
  {
    match e
    case Arrive =>
      if Unlimited(l) then l.(inside := l.inside + 1, arrivals := l.arrivals + 1, accepted := l.accepted + 1)
      else if l.tokens < l.limit then
        l.(tokens := l.tokens + 1, inside := l.inside + 1, arrivals := l.arrivals + 1, accepted := l.accepted + 1)
      else l.(arrivals := l.arrivals + 1, refused := l.refused + 1)
    case HandlerReturns => l.(inside := l.inside - 1, releasing := l.releasing + 1)
    case Release => l.(tokens := if Unlimited(l) then l.tokens else l.tokens - 1, releasing := l.releasing - 1)
  }

  predicate Run(l: Limiter, es: seq<Event>, m: Limiter)
    decreases |es|
  {
    if es == [] then l == m
    else CanHappen(l, es[0]) && Run(Next(l, es[0]), es[1..], m)
  }

  predicate Inv(l: Limiter) {
    && l.inside >= 0 && l.releasing >= 0
    && (if Unlimited(l) then l.tokens == 0 && l.refused == 0
        else l.tokens == l.inside + l.releasing <= l.limit)
    && l.accepted + l.refused == l.arrivals
  }

  lemma {:induction false} RunInv(l: Limiter, es: seq<Event>, m: Limiter)
    requires Inv(l) && Run(l, es, m)
    ensures Inv(m) && m.limit == l.limit
    decreases |es|
  {
    if es == [] {
    } else {
      RunInv(Next(l, es[0]), es[1..], m);
    }
  }

  /**
   * Over any run: the tokens are the requests in flight and never exceed the
   * limit, taking a token back never blocks, every arrival is either let in or
   * refused, and refused exactly when `limit` requests are in flight.
   */
  lemma Accounting(limit: int, es: seq<Event>, l: Limiter, e: Event)
    requires Run(New(limit), es, l) && CanHappen(l, e)
    ensures !Unlimited(l) ==> l.tokens == l.inside + l.releasing <= limit
    ensures !Blocks(l, e)
    ensures l.accepted + l.refused == l.arrivals
    ensures Next(l, e).refused > l.refused <==> e.Arrive? && limit > 0 && l.inside + l.releasing == limit
  {
    RunInv(New(limit), es, l);
  }

  function Arrivals(m: nat): seq<Event> {
    seq(m, _ => Arrive)
  }

  /** A burst of `m` requests, whatever is in flight: exactly the free places are filled. */
  lemma {:induction false} Burst(l: Limiter, m: nat, k: Limiter)
    requires Inv(l) && !Unlimited(l) && Run(l, Arrivals(m), k)
    ensures k.accepted - l.accepted == Min(m, l.limit - l.inside - l.releasing)
    ensures k.refused - l.refused == m - (k.accepted - l.accepted)
    decreases m
  {
    if m == 0 {
    } else {
      assert Arrivals(m)[1..] == Arrivals(m - 1);
      Burst(Next(l, Arrive), m - 1, k);
    }
  }

  function Releases(es: seq<Event>): nat {
    if es == [] then 0 else (if es[0].Release? then 1 else 0) + Releases(es[1..])
  }

  function Returns(es: seq<Event>): nat {
    if es == [] then 0 else (if es[0].HandlerReturns? then 1 else 0) + Returns(es[1..])
  }

  /** Books of a run: who is in flight has been let in and has not taken the token back. */
  lemma {:induction false} InFlight(l: Limiter, es: seq<Event>, m: Limiter)
    requires Run(l, es, m)
    ensures m.inside - l.inside == m.accepted - l.accepted - Returns(es)
    ensures m.releasing - l.releasing == Returns(es) - Releases(es)
    decreases |es|
  {
    if es == [] {
    } else {
      InFlight(Next(l, es[0]), es[1..], m);
    }
  }

  /** What has been let in and has left again leaves no trace: the next burst finds the whole limit free. */
  lemma PlacesComeBack(limit: int, es: seq<Event>, l: Limiter, m: nat, k: Limiter)
    requires limit > 0 && Run(New(limit), es, l) && Run(l, Arrivals(m), k)
    requires Releases(es) == l.accepted
    ensures l.tokens == 0 && l.inside == 0 && l.releasing == 0
    ensures k.accepted - l.accepted == Min(m, limit)
  {
    RunInv(New(limit), es, l);
    InFlight(New(limit), es, l);
    Burst(l, m, k);
  }

  /** The handler itself: its only state is the channel. `books` follows the requests. */
  class Handler {
    const limit: int
    var tokens: nat
    ghost var books: Limiter

    ghost predicate Valid()
      reads this
    {
      Inv(books) && books.limit == limit && books.tokens == tokens
    }

    constructor (limit: int)
      ensures Valid() && this.limit == limit && books == New(limit)
    {
      this.limit := limit;
      tokens := 0;
      books := New(limit);
    }

    /** A request at the door: let in, or answered with 503. */
    method Arrives() returns (entered: bool)
      requires Valid()
      modifies this
      ensures Valid() && books == Next(old(books), Arrive)
      ensures entered <==> limit <= 0 || old(books.inside + books.releasing) < limit
      ensures tokens == old(tokens) + if entered && limit > 0 then 1 else 0
    {
      books := Next(books, Arrive);
      if limit <= 0 {
        return true;
      }
      if tokens < limit {
        tokens := tokens + 1;
        return true;
      }
      return false;
    }

    ghost method HandlerReturned()
      requires Valid() && books.inside > 0
      modifies this`books
      ensures Valid() && books == Next(old(books), HandlerReturns)
    {
      books := Next(books, HandlerReturns);
    }

    /** The deferred receive: whoever got in finds a token to take back. */
    method TakesBack()
      requires Valid() && books.releasing > 0
      modifies this
      ensures Valid() && books == Next(old(books), Release)
      ensures limit > 0 ==> tokens == old(tokens) - 1
    {
      books := Next(books, Release);
      if limit > 0 {
        tokens := tokens - 1;
      }
    }
  }
}
