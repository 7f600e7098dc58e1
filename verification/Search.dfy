/** The ranked search over the comics table. */
module Search {
  import opened Common
  import opened EngineRefinement
  import opened Storage

  datatype Hit = Hit(id: int, url: string, score: nat)

  datatype Found = Found(id: int, url: string)

  function Score(c: Comic, q: set<string>): nat {
    |ToSet(c.words) * q|
  }

  predicate Overlaps(c: Comic, q: set<string>) {
    ToSet(c.words) * q != {}
  }

  function HitOf(c: Comic, q: set<string>): Hit {
    Hit(c.id, c.url, Score(c, q))
  }

  /** The matches, as a set: WHERE and the score column. */
  function Hits(rows: seq<Comic>, q: set<string>): set<Hit> {
    set c | c in rows && Overlaps(c, q) :: HitOf(c, q)
  }

  /** ORDER BY score DESC, id. */
  predicate Before(a: Hit, b: Hit) {
    a.score > b.score || (a.score == b.score && a.id < b.id)
  }

  predicate Ranked(hs: seq<Hit>) {
    forall i, j :: 0 <= i < j < |hs| ==> Before(hs[i], hs[j])
  }

  /** What the query promises, without saying how it is computed. */
  ghost predicate IsTopK(rows: seq<Comic>, q: set<string>, k: nat, out: seq<Hit>) {
    && Ranked(out)
    && ToSet(out) <= Hits(rows, q)
    && |out| == Min(k, |Hits(rows, q)|)
    && forall x, y :: x in Hits(rows, q) && x !in out && y in out ==> Before(y, x)
  }

  function Insert(h: Hit, hs: seq<Hit>): seq<Hit> {
    if hs == [] then [h]
    else if Before(h, hs[0]) then [h] + hs
    else [hs[0]] + Insert(h, hs[1..])
  }

  function Rank(rows: seq<Comic>, q: set<string>): seq<Hit> {
    if rows == [] then []
    else
      var c, front := rows[|rows| - 1], Rank(rows[..|rows| - 1], q);
      if Overlaps(c, q) then Insert(HitOf(c, q), front) else front
  }

  function Take<T>(s: seq<T>, k: nat): seq<T> {
    s[..Min(k, |s|)]
  }

  /** The query with its LIMIT. */
  function Query(rows: seq<Comic>, q: set<string>, k: nat): seq<Hit> {
    Take(Rank(rows, q), k)
  }

  function EffectiveLimit(limit: int): nat {
    if limit <= 0 then 10 else limit
  }

  /** The comics that share a word with the query. */
  function Matches(rows: seq<Comic>, q: set<string>): set<Comic> {
    set c | c in rows && ToSet(c.words) * q != {}
  }

  /**
   * `found` names, in this order, comics of the table whose scores, the numbers of
   * words shared with the query, are those in `out`: never growing, and ids growing
   * where they are equal.
   */
  ghost predicate Lists(rows: seq<Comic>, q: set<string>, out: seq<Hit>, found: seq<Found>) {
    && |found| == |out|
    && (forall i :: 0 <= i < |out| ==> found[i].id == out[i].id && found[i].url == out[i].url)
    && (forall i :: 0 <= i < |out| ==> out[i].score > 0 && IsRow(rows, q, out[i]))
    && (forall i, j :: 0 <= i < j < |out| ==>
          out[i].score > out[j].score || (out[i].score == out[j].score && out[i].id < out[j].id))
  }

  ghost predicate IsRow(rows: seq<Comic>, q: set<string>, h: Hit) {
    exists c :: c in rows && c.id == h.id && c.url == h.url && |ToSet(c.words) * q| == h.score
  }

  /**
   * `Search`: `normed` is what the normaliser answers, `rows` what the database
   * holds when the query runs, or the failure of either.
   */
  method Search(rows: Result<seq<Comic>>, normed: Result<seq<string>>, limit: int) returns (r: Result<seq<Found>>)
    requires rows.Ok? ==> Distinct(rows.value)
    ensures normed.Err? ==> r == Err(normed.error)
    ensures normed.Ok? && normed.value == [] ==> r == Ok([])
    ensures normed.Ok? && normed.value != [] && rows.Err? ==> r == Err(rows.error)
    ensures normed.Ok? && rows.Ok? ==>
              && r.Ok?
              && |r.value| == Min(if limit <= 0 then 10 else limit, |Matches(rows.value, ToSet(normed.value))|)
              && exists out :: IsTopK(rows.value, ToSet(normed.value), EffectiveLimit(limit), out)
                               && Lists(rows.value, ToSet(normed.value), out, r.value)
  {
    var effective := limit;
    if effective <= 0 {
      effective := 10;
    }
    if normed.Err? {
      return Err(normed.error);
    }
    var words := normed.value;
    if words == [] {
      if rows.Ok? {
        NoWordsNoHits(rows.value);
        HitsAreMatches(rows.value, ToSet(words));
        assert IsTopK(rows.value, ToSet(words), effective, []) && Lists(rows.value, ToSet(words), [], []);
      }
      return Ok([]);
    }
    if rows.Err? {
      return Err(rows.error);
    }
    var comics := Query(rows.value, ToSet(words), effective);
    var found: seq<Found> := [];
    for i := 0 to |comics|
      invariant |found| == i
      invariant forall j :: 0 <= j < i ==> found[j] == Found(comics[j].id, comics[j].url)
    {
      found := found + [Found(comics[i].id, comics[i].url)];
    }
    QueryIsTopK(rows.value, ToSet(words), effective);
    HitsAreMatches(rows.value, ToSet(words));
    TopKLists(rows.value, ToSet(words), effective, comics);
    assert Lists(rows.value, ToSet(words), comics, found);
    return Ok(found);
  }

  lemma TopKLists(rows: seq<Comic>, q: set<string>, k: nat, out: seq<Hit>)
    requires IsTopK(rows, q, k, out)
    ensures forall i :: 0 <= i < |out| ==> out[i].score > 0 && IsRow(rows, q, out[i])
  {
    forall i | 0 <= i < |out| ensures out[i].score > 0 && IsRow(rows, q, out[i]) {
      assert out[i] in ToSet(out);
      var c :| c in rows && Overlaps(c, q) && out[i] == HitOf(c, q);
      assert ToSet(c.words) * q != {};
    }
  }

  lemma NoWordsNoHits(rows: seq<Comic>)
    ensures Hits(rows, ToSet([])) == {}
  {
  }

  lemma OneMoreHit(front: seq<Comic>, c: Comic, q: set<string>)
    requires Distinct(front + [c])
    ensures c !in Matches(front, q) && HitOf(c, q) !in Hits(front, q)
  {
    forall i | 0 <= i < |front| ensures front[i].id != c.id {
      assert (front + [c])[i] == front[i] && (front + [c])[|front|] == c;
    }
  }

  lemma MatchesSnoc(front: seq<Comic>, c: Comic, q: set<string>)
    ensures Matches(front + [c], q) == Matches(front, q) + if Overlaps(c, q) then {c} else {}
  {
    assert forall x :: x in front + [c] <==> x in front || x == c;
  }

  lemma {:induction false} HitsAreMatches(rows: seq<Comic>, q: set<string>)
    requires Distinct(rows)
    ensures |Hits(rows, q)| == |Matches(rows, q)|
  {
    if rows == [] {
      assert Hits(rows, q) == {} && Matches(rows, q) == {};
    } else {
      var front, c := rows[..|rows| - 1], rows[|rows| - 1];
      HitsAreMatches(front, q);
      assert rows == front + [c];
      HitsSnoc(front, c, q);
      MatchesSnoc(front, c, q);
      OneMoreHit(front, c, q);
    }
  }

  lemma {:induction false} InsertRanked(h: Hit, hs: seq<Hit>)
    requires Ranked(hs) && forall i :: 0 <= i < |hs| ==> hs[i].id != h.id
    ensures Ranked(Insert(h, hs)) && ToSet(Insert(h, hs)) == ToSet(hs) + {h}
  {
    if hs == [] || Before(h, hs[0]) {
    } else {
      InsertRanked(h, hs[1..]);
      var rest := Insert(h, hs[1..]);
      assert ToSet(hs) == {hs[0]} + ToSet(hs[1..]);
      assert ToSet([hs[0]] + rest) == {hs[0]} + ToSet(rest);
      forall j | 0 <= j < |rest| ensures Before(hs[0], rest[j]) {
        assert rest[j] in ToSet(rest);
      }
    }
  }

  lemma HitsSnoc(rows: seq<Comic>, c: Comic, q: set<string>)
    ensures Hits(rows + [c], q) == Hits(rows, q) + if Overlaps(c, q) then {HitOf(c, q)} else {}
  {
    assert forall x :: x in rows + [c] <==> x in rows || x == c;
  }

  /** Ranking puts every match in its place, and nothing else. */
  lemma {:induction false} RankCorrect(rows: seq<Comic>, q: set<string>)
    requires Distinct(rows)
    ensures Ranked(Rank(rows, q)) && ToSet(Rank(rows, q)) == Hits(rows, q)
  {
    if rows == [] {
    } else {
      var c, front := rows[|rows| - 1], rows[..|rows| - 1];
      RankCorrect(front, q);
      assert rows == front + [c];
      HitsSnoc(front, c, q);
      if Overlaps(c, q) {
        var hs := Rank(front, q);
        forall i | 0 <= i < |hs| ensures hs[i].id != c.id {
          assert hs[i] in ToSet(hs);
        }
        InsertRanked(HitOf(c, q), hs);
      }
    }
  }

  lemma RankedNoDup(hs: seq<Hit>)
    requires Ranked(hs)
    ensures NoDup(hs) && |ToSet(hs)| == |hs|
  {
    NoDupCardinality(hs);
  }

  lemma QueryIsTopK(rows: seq<Comic>, q: set<string>, k: nat)
    requires Distinct(rows)
    ensures IsTopK(rows, q, k, Query(rows, q, k))
  {
    var all, out := Rank(rows, q), Query(rows, q, k);
    RankCorrect(rows, q);
    RankedNoDup(all);
    forall x, y | x in Hits(rows, q) && x !in out && y in out ensures Before(y, x) {
      var i :| 0 <= i < |out| && out[i] == y;
      assert x in ToSet(all);
      var j :| 0 <= j < |all| && all[j] == x;
      assert forall n :: 0 <= n < |out| ==> out[n] == all[n] && out[n] in out;
    }
  }

  /** A ranked list inside another one that it precedes is its beginning. */
  lemma {:induction false} RankedPrefix(a: seq<Hit>, b: seq<Hit>)
    requires Ranked(a) && Ranked(b) && ToSet(a) <= ToSet(b)
    requires forall x, y :: x in b && x !in a && y in a ==> Before(y, x)
    ensures a <= b
    decreases |a|
  {
    if a == [] {
    } else {
      assert a[0] in ToSet(a);
      var i :| 0 <= i < |b| && b[i] == a[0];
      assert b[0] == a[0] by {
        if b[0] in a {
          var j :| 0 <= j < |a| && a[j] == b[0];
        }
      }
      forall x | x in ToSet(a[1..]) ensures x in ToSet(b[1..]) {
        assert x in ToSet(a);
        var n :| 1 <= n < |a| && a[n] == x;
        var m :| 0 <= m < |b| && b[m] == x;
        assert m != 0;
        assert b[1..][m - 1] == x;
      }
      forall x, y | x in b[1..] && x !in a[1..] && y in a[1..] ensures Before(y, x) {
        assert x in b && y in a;
        assert x != a[0];
        assert x !in a;
      }
      RankedPrefix(a[1..], b[1..]);
      assert a == [a[0]] + a[1..] && b == [b[0]] + b[1..];
    }
  }

  lemma RankedUnique(a: seq<Hit>, b: seq<Hit>)
    requires Ranked(a) && Ranked(b) && ToSet(a) == ToSet(b)
    ensures a == b
  {
    assert forall x :: x in a <==> x in ToSet(a);
    assert forall x :: x in b <==> x in ToSet(b);
    RankedPrefix(a, b);
    RankedPrefix(b, a);
  }

  /** The promise leaves no choice: there is one top-k list, and the query computes it. */
  lemma TopKUnique(rows: seq<Comic>, q: set<string>, k: nat, out: seq<Hit>)
    requires Distinct(rows)
    ensures IsTopK(rows, q, k, out) <==> out == Query(rows, q, k)
  {
    QueryIsTopK(rows, q, k);
    if IsTopK(rows, q, k, out) {
      RankCorrect(rows, q);
      RankedNoDup(Rank(rows, q));
      assert forall x :: x in Rank(rows, q) <==> x in Hits(rows, q);
      RankedPrefix(out, Rank(rows, q));
    }
  }
}
