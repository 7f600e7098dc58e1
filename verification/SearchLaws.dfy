/** Laws of the search: what its result depends on, and how it changes with limit, words and table. */
module SearchLaws {
  import opened Common
  import opened Engine
  import opened EngineRefinement
  import opened Storage
  import opened Search
  import opened Words

  lemma SameHits(a: seq<Comic>, b: seq<Comic>, q: set<string>)
    requires Distinct(a) && Distinct(b) && SameComics(a, b)
    ensures Hits(a, q) <= Hits(b, q)
  {
    forall h | h in Hits(a, q) ensures h in Hits(b, q) {
      var i :| 0 <= i < |a| && Overlaps(a[i], q) && h == HitOf(a[i], q);
      var j := FindComic(a, b, i);
      assert b[j] in b;
    }
  }

  /**
   * Determinism.  The list is a function of the comics and the words as sets:
   * neither the order of the rows, nor the order of the words in a row, nor the
   * order or repetition of the words asked for makes a difference.
   */
  lemma SearchDependsOnSets(a: seq<Comic>, b: seq<Comic>, v: seq<string>, w: seq<string>, k: nat,
                            out: seq<Hit>, out': seq<Hit>)
    requires Distinct(a) && Distinct(b) && SameComics(a, b) && ToSet(v) == ToSet(w)
    requires IsTopK(a, ToSet(v), k, out) && IsTopK(b, ToSet(w), k, out')
    ensures out == out'
  {
    var q := ToSet(v);
    SameHits(a, b, q);
    SameHits(b, a, q);
    RankCorrect(a, q);
    RankCorrect(b, q);
    RankedUnique(Rank(a, q), Rank(b, q));
    TopKUnique(a, q, k, out);
    TopKUnique(b, q, k, out');
  }

  lemma ScoreOfMatch(c: Comic, q: set<string>)
    requires Overlaps(c, q)
    ensures Score(c, q) >= 1
  {
    var x :| x in ToSet(c.words) * q;
    SubsetCardinality({x}, ToSet(c.words) * q);
  }

  /** The limit cuts a fixed list: its length, its lower bound on scores, and prefixes. */
  lemma LimitLaws(rows: seq<Comic>, q: set<string>, limit: int, wider: int)
    requires Distinct(rows) && EffectiveLimit(limit) <= EffectiveLimit(wider)
    ensures var out := Query(rows, q, EffectiveLimit(limit));
            && |out| == Min(EffectiveLimit(limit), |Matches(rows, q)|)
            && (forall i :: 0 <= i < |out| ==> out[i].score >= 1)
            && out <= Query(rows, q, EffectiveLimit(wider))
    ensures limit <= 0 ==> Query(rows, q, EffectiveLimit(limit)) == Query(rows, q, EffectiveLimit(10))
  {
    var out := Query(rows, q, EffectiveLimit(limit));
    QueryIsTopK(rows, q, EffectiveLimit(limit));
    HitsAreMatches(rows, q);
    forall i | 0 <= i < |out| ensures out[i].score >= 1 {
      assert out[i] in ToSet(out);
      var c :| c in rows && Overlaps(c, q) && out[i] == HitOf(c, q);
      ScoreOfMatch(c, q);
    }
  }

  /** A separated phrase finds what its parts find, with at least their scores and at most the sum. */
  lemma PhraseFindsUnion(lex: Lexicon, p: string, sep: string, q: string, c: Comic)
    requires sep != [] && AllSeparators(lex, sep)
    ensures Overlaps(c, NormSet(lex, p + sep + q)) <==> Overlaps(c, NormSet(lex, p)) || Overlaps(c, NormSet(lex, q))
    ensures Score(c, NormSet(lex, p)) <= Score(c, NormSet(lex, p + sep + q))
    ensures Score(c, NormSet(lex, p + sep + q)) <= Score(c, NormSet(lex, p)) + Score(c, NormSet(lex, q))
  {
    NormOfSeparated(lex, p, sep, q);
    var w, a, b := ToSet(c.words), NormSet(lex, p), NormSet(lex, q);
    assert w * (a + b) == w * a + w * b;
    SubsetCardinality(w * a, w * (a + b));
    assert |w * a + w * b| == |w * a| + |w * b| - |(w * a) * (w * b)|;
  }

  // ----- A growing table -----

  function Merge(a: seq<Hit>, b: seq<Hit>): seq<Hit> {
    if a == [] then b
    else if b == [] then a
    else if Before(a[0], b[0]) then [a[0]] + Merge(a[1..], b)
    else [b[0]] + Merge(a, b[1..])
  }

  ghost predicate IdsApart(a: seq<Hit>, b: seq<Hit>) {
    forall i, j :: 0 <= i < |a| && 0 <= j < |b| ==> a[i].id != b[j].id
  }

  lemma {:induction false} MergeRanked(a: seq<Hit>, b: seq<Hit>)
    requires Ranked(a) && Ranked(b) && IdsApart(a, b)
    ensures Ranked(Merge(a, b)) && ToSet(Merge(a, b)) == ToSet(a) + ToSet(b)
    decreases |a| + |b|
  {
    if a == [] || b == [] {
    } else {
      if Before(a[0], b[0]) {
        MergeRanked(a[1..], b);
        MergeHead(a[0], a[1..], b, Merge(a[1..], b));
      } else {
        MergeRanked(a, b[1..]);
        MergeHead(b[0], b[1..], a, Merge(a, b[1..]));
      }
    }
  }

  lemma MergeHead(x: Hit, a: seq<Hit>, b: seq<Hit>, m: seq<Hit>)
    requires Ranked([x] + a) && Ranked(b) && b != [] && Before(x, b[0])
    requires Ranked(m) && ToSet(m) == ToSet(a) + ToSet(b)
    ensures Ranked([x] + m) && ToSet([x] + m) == ToSet([x] + a) + ToSet(b)
  {
    forall j | 0 <= j < |m| ensures Before(x, m[j]) {
      assert m[j] in ToSet(m);
      if m[j] in a {
        var i :| 0 <= i < |a| && a[i] == m[j];
        assert ([x] + a)[0] == x && ([x] + a)[i + 1] == a[i];
      } else {
        var i :| 0 <= i < |b| && b[i] == m[j];
        assert i == 0 || Before(b[0], b[i]);
      }
    }
    assert ToSet([x] + m) == {x} + ToSet(m);
    assert ToSet([x] + a) == {x} + ToSet(a);
  }

  lemma HitsConcat(rows: seq<Comic>, added: seq<Comic>, q: set<string>)
    ensures Hits(rows + added, q) == Hits(rows, q) + Hits(added, q)
  {
    assert forall x :: x in rows + added <==> x in rows || x in added;
  }

  lemma RanksApart(rows: seq<Comic>, added: seq<Comic>, q: set<string>)
    requires Distinct(rows + added)
    ensures Distinct(rows) && Distinct(added) && IdsApart(Rank(rows, q), Rank(added, q))
  {
    var all := rows + added;
    assert forall i :: 0 <= i < |rows| ==> all[i] == rows[i];
    assert forall i :: 0 <= i < |added| ==> all[|rows| + i] == added[i];
    RankCorrect(rows, q);
    RankCorrect(added, q);
    var a, b := Rank(rows, q), Rank(added, q);
    forall i, j | 0 <= i < |a| && 0 <= j < |b| ensures a[i].id != b[j].id {
      assert a[i] in ToSet(a) && b[j] in ToSet(b);
      var m :| 0 <= m < |rows| && a[i] == HitOf(rows[m], q);
      var n :| 0 <= n < |added| && b[j] == HitOf(added[n], q);
      assert all[m].id != all[|rows| + n].id;
    }
  }

  /** Ranking a grown table is merging the old ranking with that of the added comics. */
  lemma RankOfGrown(rows: seq<Comic>, added: seq<Comic>, q: set<string>)
    requires Distinct(rows + added)
    ensures Rank(rows + added, q) == Merge(Rank(rows, q), Rank(added, q))
  {
    RanksApart(rows, added, q);
    RankCorrect(rows, q);
    RankCorrect(added, q);
    RankCorrect(rows + added, q);
    MergeRanked(Rank(rows, q), Rank(added, q));
    HitsConcat(rows, added, q);
    RankedUnique(Rank(rows + added, q), Merge(Rank(rows, q), Rank(added, q)));
  }

  lemma {:induction false} TakeMerge(a: seq<Hit>, b: seq<Hit>, k: nat)
    ensures Take(Merge(a, b), k) == Take(Merge(Take(a, k), b), k)
    decreases |a| + |b|
  {
    if k == 0 || a == [] || b == [] {
      assert b == [] ==> Merge(a, b) == a && Merge(Take(a, k), b) == Take(a, k);
    } else if Before(a[0], b[0]) {
      TakeMerge(a[1..], b, k - 1);
      var m := Merge(Take(a, k), b);
      assert Take(a, k)[0] == a[0] && Take(a, k)[1..] == Take(a[1..], k - 1);
      TakeCons(a[0], Merge(a[1..], b), k);
      TakeCons(a[0], Merge(Take(a[1..], k - 1), b), k);
    } else {
      TakeMerge(a, b[1..], k - 1);
      TakeMerge(Take(a, k), b[1..], k - 1);
      assert Take(Take(a, k), k - 1) == Take(a, k - 1);
      assert Take(a, k)[0] == a[0];
      TakeCons(b[0], Merge(a, b[1..]), k);
      TakeCons(b[0], Merge(Take(a, k), b[1..]), k);
    }
  }

  lemma TakeCons(x: Hit, s: seq<Hit>, k: nat)
    requires k > 0
    ensures Take([x] + s, k) == [x] + Take(s, k - 1)
  {
  }

  /**
   * Search under growth.  After any comics are added, the new answer is the old
   * answer merged with the ranking of the added comics and cut again; the rest of
   * the old table is not needed.
   */
  lemma SearchAfterAdds(rows: seq<Comic>, added: seq<Comic>, q: set<string>, k: nat)
    requires Distinct(rows + added)
    ensures Query(rows + added, q, k) == Take(Merge(Query(rows, q, k), Rank(added, q)), k)
  {
    RankOfGrown(rows, added, q);
    TakeMerge(Rank(rows, q), Rank(added, q), k);
  }

  function Keep(hs: seq<Hit>, s: set<Hit>): seq<Hit> {
    if hs == [] then []
    else (if hs[0] in s then [hs[0]] else []) + Keep(hs[1..], s)
  }

  lemma {:induction false} KeepSet(hs: seq<Hit>, s: set<Hit>)
    ensures ToSet(Keep(hs, s)) == ToSet(hs) * s
  {
    if hs == [] {
    } else {
      KeepSet(hs[1..], s);
      assert ToSet(hs) == {hs[0]} + ToSet(hs[1..]);
      assert ToSet([hs[0]] + Keep(hs[1..], s)) == {hs[0]} + ToSet(Keep(hs[1..], s));
      assert [] + Keep(hs[1..], s) == Keep(hs[1..], s);
    }
  }

  lemma HeadBefore(hs: seq<Hit>, rest: seq<Hit>)
    requires hs != [] && Ranked(hs) && ToSet(rest) <= ToSet(hs[1..])
    ensures forall j :: 0 <= j < |rest| ==> Before(hs[0], rest[j])
  {
    forall j | 0 <= j < |rest| ensures Before(hs[0], rest[j]) {
      assert rest[j] in ToSet(rest);
      var i :| 0 <= i < |hs[1..]| && hs[1..][i] == rest[j];
      assert hs[i + 1] == rest[j];
    }
  }

  lemma {:induction false} KeepRanked(hs: seq<Hit>, s: set<Hit>)
    requires Ranked(hs)
    ensures Ranked(Keep(hs, s))
  {
    if hs == [] {
    } else {
      var rest := Keep(hs[1..], s);
      KeepRanked(hs[1..], s);
      KeepSet(hs[1..], s);
      HeadBefore(hs, rest);
      assert Ranked([hs[0]] + rest);
      assert [] + rest == rest;
    }
  }

  /** The old matches keep their scores and their order among themselves. */
  lemma OldMatchesKeepOrder(rows: seq<Comic>, added: seq<Comic>, q: set<string>)
    requires Distinct(rows + added)
    ensures Keep(Rank(rows + added, q), Hits(rows, q)) == Rank(rows, q)
  {
    RanksApart(rows, added, q);
    RankCorrect(rows, q);
    RankCorrect(rows + added, q);
    HitsConcat(rows, added, q);
    KeepSet(Rank(rows + added, q), Hits(rows, q));
    KeepRanked(Rank(rows + added, q), Hits(rows, q));
    RankedUnique(Keep(Rank(rows + added, q), Hits(rows, q)), Rank(rows, q));
  }
}
