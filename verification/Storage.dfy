/** The `comics` table and the queries of the update service over it. */
module Storage {
  import opened Common
  import opened Engine
  import opened EngineRefinement

  datatype Comic = Comic(id: int, url: string, words: seq<string>)

  /** The primary key. The rows lie in whatever order they were inserted. */
  predicate Distinct(rows: seq<Comic>) {
    forall i, j :: 0 <= i < j < |rows| ==> rows[i].id != rows[j].id
  }

  function TableOf(rows: seq<Comic>): Table
    requires Distinct(rows)
  {
    map r | r in rows :: r.id := Row(r.url, r.words)
  }

  function TotalWords(rows: seq<Comic>): nat {
    if rows == [] then 0 else TotalWords(rows[..|rows| - 1]) + |rows[|rows| - 1].words|
  }

  function AllWords(rows: seq<Comic>): set<string> {
    set r, w | r in rows && w in r.words :: w
  }

  datatype DBStats = DBStats(wordsTotal: nat, wordsUnique: nat, comicsFetched: nat)

  function StatsOf(rows: seq<Comic>): DBStats {
    DBStats(TotalWords(rows), |AllWords(rows)|, |rows|)
  }

  /** What `Stats` replies when its reads find `r1`, `r2` and `r3`. */
  function Seen(r1: seq<Comic>, r2: seq<Comic>, r3: seq<Comic>): DBStats {
    DBStats(TotalWords(r2), |AllWords(r3)|, |r1|)
  }

  class DB {
    var rows: seq<Comic>

    predicate Valid()
      reads this
    {
      Distinct(rows)
    }

    constructor ()
      ensures Valid() && rows == []
    {
      rows := [];
    }

    /** `failure` is a failure of the database; `landed` says whether the row got in all the same. */
    method Add(c: Comic, failure: Option<Error>, landed: bool) returns (err: Option<Error>)
      requires Valid()
      modifies this
      ensures Valid()
      ensures err.None? <==> failure.None? && c.id !in old(TableOf(rows))
      ensures TableOf(rows) ==
              if c.id !in old(TableOf(rows)) && (failure.None? || landed) then
                old(TableOf(rows))[c.id := Row(c.url, c.words)]
              else old(TableOf(rows))
      ensures old(rows) <= rows
    {
      if exists i :: 0 <= i < |rows| && rows[i].id == c.id {
        return Some(if failure.Some? then failure.value else AlreadyExists);
      }
      if failure.None? || landed {
        rows := rows + [c];
      }
      return failure;
    }

    /** What fills the `known` map; a report of "no rows" counts as an empty answer. */
    method IDs(failure: Option<Error>) returns (r: Result<seq<int>>)
      requires Valid()
      ensures failure == None ==> r.Ok? && NoDup(r.value) && ToSet(r.value) == TableOf(rows).Keys
      ensures failure == Some(NoRows) ==> r == Ok([])
      ensures failure != None && failure != Some(NoRows) ==> r == Err(failure.value)
    {
      if failure.Some? {
        return if failure.value == NoRows then Ok([]) else Err(failure.value);
      }
      var ids: seq<int> := [];
      for i := 0 to |rows|
        invariant |ids| == i && forall j :: 0 <= j < i ==> ids[j] == rows[j].id
      {
        ids := ids + [rows[i].id];
      }
      assert forall r :: r in rows ==> exists i :: 0 <= i < |rows| && r == rows[i] && ids[i] == r.id;
      assert forall id :: id in ids ==> exists i :: 0 <= i < |rows| && rows[i].id == id;
      return Ok(ids);
    }

    method Drop(failure: Option<Error>, landed: bool) returns (err: Option<Error>)
      requires Valid()
      modifies this
      ensures Valid() && err == failure
      ensures rows == if failure.None? || landed then [] else old(rows)
    {
      if failure.None? || landed {
        rows := [];
      }
      return failure;
    }

    /**
     * Three reads, each of the table as it is at that moment, or failing. The
     * first failure ends the call.
     */
    static method Stats(count: Result<seq<Comic>>, total: Result<seq<Comic>>, unique: Result<seq<Comic>>)
      returns (r: Result<DBStats>)
      ensures count.Err? ==> r == Err(count.error)
      ensures count.Ok? && total.Err? ==> r == Err(total.error)
      ensures count.Ok? && total.Ok? && unique.Err? ==> r == Err(unique.error)
      ensures count.Ok? && total.Ok? && unique.Ok? ==> r == Ok(Seen(count.value, total.value, unique.value))
    {
      if count.Err? {
        return Err(count.error);
      }
      if total.Err? {
        return Err(total.error);
      }
      var sum, rows := 0, total.value;
      for i := 0 to |rows|
        invariant sum == TotalWords(rows[..i])
      {
        assert rows[..i + 1] == rows[..i] + [rows[i]];
        AllWordsSnoc(rows[..i], rows[i]);
        sum := sum + |rows[i].words|;
      }
      assert rows[..|rows|] == rows;
      if unique.Err? {
        return Err(unique.error);
      }
      var words: set<string>;
      words, rows := {}, unique.value;
      for i := 0 to |rows|
        invariant words == AllWords(rows[..i])
      {
        assert rows[..i + 1] == rows[..i] + [rows[i]];
        AllWordsSnoc(rows[..i], rows[i]);
        words := words + ToSet(rows[i].words);
      }
      assert rows[..|rows|] == rows;
      return Ok(DBStats(sum, |words|, |count.value|));
    }
  }

  lemma AllWordsSnoc(rows: seq<Comic>, c: Comic)
    ensures AllWords(rows + [c]) == AllWords(rows) + ToSet(c.words)
    ensures TotalWords(rows + [c]) == TotalWords(rows) + |c.words|
  {
    assert (rows + [c])[..|rows|] == rows;
    forall w ensures w in AllWords(rows + [c]) <==> w in AllWords(rows) + ToSet(c.words) {
      if w in AllWords(rows) {
        var r :| r in rows && w in r.words;
        assert r in rows + [c];
      }
      assert c in rows + [c];
    }
  }

  lemma TableOfAdd(rows: seq<Comic>, c: Comic)
    requires Distinct(rows) && forall i :: 0 <= i < |rows| ==> rows[i].id != c.id
    ensures Distinct(rows + [c])
    ensures TableOf(rows + [c]) == TableOf(rows)[c.id := Row(c.url, c.words)]
  {
    assert forall r :: r in rows + [c] <==> r in rows || r == c;
  }

  /** On one state of the table no word is counted as unique more often than in total. */
  lemma {:induction false} UniqueAtMostTotal(rows: seq<Comic>)
    ensures |AllWords(rows)| <= TotalWords(rows)
  {
    if rows == [] {
      assert AllWords(rows) == {};
    } else {
      var front, c := rows[..|rows| - 1], rows[|rows| - 1];
      UniqueAtMostTotal(front);
      assert rows == front + [c];
      AllWordsSnoc(front, c);
      SetOfSeqBound(c.words);
    }
  }

  lemma {:induction false} StatsGrow(a: seq<Comic>, b: seq<Comic>)
    requires a <= b
    ensures |a| <= |b| && TotalWords(a) <= TotalWords(b) && |AllWords(a)| <= |AllWords(b)|
    decreases |b|
  {
    if |a| < |b| {
      var front, c := b[..|b| - 1], b[|b| - 1];
      StatsGrow(a, front);
      assert b == front + [c];
      AllWordsSnoc(front, c);
      SubsetCardinality(AllWords(front), AllWords(b));
    } else {
      assert a == b;
    }
  }

  /**
   * `Stats` reads the table three times. If nothing is dropped, each figure lies
   * between its values when the call starts and when it ends.
   */
  lemma StatsReadsBetween(start: seq<Comic>, r1: seq<Comic>, r2: seq<Comic>, r3: seq<Comic>, end: seq<Comic>)
    requires start <= r1 <= r2 <= r3 <= end
    ensures var seen := Seen(r1, r2, r3);
            && StatsOf(start).comicsFetched <= seen.comicsFetched <= StatsOf(end).comicsFetched
            && StatsOf(start).wordsTotal <= seen.wordsTotal <= StatsOf(end).wordsTotal
            && StatsOf(start).wordsUnique <= seen.wordsUnique <= StatsOf(end).wordsUnique
  {
    StatsGrow(start, r1);
    StatsGrow(r1, r2);
    StatsGrow(r2, r3);
    StatsGrow(r3, end);
  }

  /** A reply that could have been read off one state: no more unique words than words. */
  predicate Fits(r: DBStats) {
    r.wordsUnique <= r.wordsTotal
  }

  /** One reply fits exactly when the repetitions counted early outweigh the words that came in late. */
  lemma ReplyFitsIff(r1: seq<Comic>, r2: seq<Comic>, r3: seq<Comic>)
    requires r1 <= r2 <= r3
    ensures Fits(Seen(r1, r2, r3)) <==> |AllWords(r3) - AllWords(r2)| <= TotalWords(r2) - |AllWords(r2)|
  {
    MoreRowsMoreWords(r2, r3);
    assert AllWords(r3) == AllWords(r2) + (AllWords(r3) - AllWords(r2));
  }

  lemma MoreRowsMoreWords(a: seq<Comic>, b: seq<Comic>)
    requires a <= b
    ensures AllWords(a) <= AllWords(b)
  {
    forall w | w in AllWords(a) ensures w in AllWords(b) {
      var r :| r in a && w in r.words;
      assert r in b;
    }
  }

  /** Every reply that a call of `Stats` can give while the table grows from `start` to `full`. */
  ghost predicate AlwaysFits(start: seq<Comic>, full: seq<Comic>) {
    forall r1, r2, r3 :: start <= r1 <= r2 <= r3 <= full ==> Fits(Seen(r1, r2, r3))
  }

  /**
   * When the three reads are bound to fit together, whatever is added between
   * them: exactly when all the words there will be are no more than the words
   * already counted when the call starts.
   */
  lemma AlwaysFitsIff(start: seq<Comic>, full: seq<Comic>)
    requires start <= full
    ensures AlwaysFits(start, full) <==> |AllWords(full)| <= TotalWords(start)
  {
    if |AllWords(full)| <= TotalWords(start) {
      forall r1, r2, r3 | start <= r1 <= r2 <= r3 <= full ensures Fits(Seen(r1, r2, r3)) {
        StatsGrow(start, r2);
        StatsGrow(r3, full);
      }
    } else {
      assert start <= start <= start <= full <= full;
      assert !Fits(Seen(start, start, full));
    }
  }

  /** A reply that does not fit: one comic with one word comes in after the second read. */
  lemma TornStats(c: Comic, w: string) returns (r1: seq<Comic>, r2: seq<Comic>, r3: seq<Comic>)
    requires c.words == [w]
    ensures r1 <= r2 <= r3 && Distinct(r3)
    ensures Seen(r1, r2, r3) == DBStats(0, 1, 0) && !Fits(Seen(r1, r2, r3))
  {
    r1, r2, r3 := [], [], [c];
    AllWordsSnoc(r2, c);
    assert r2 + [c] == r3;
    assert AllWords(r2) == {};
    assert AllWords(r3) == {w};
  }

  predicate CleanWords(rows: seq<Comic>) {
    forall i :: 0 <= i < |rows| ==> NoDup(rows[i].words)
  }

  /** Two tables with the same comics, up to the order of rows and of words in a row. */
  ghost predicate SameComics(a: seq<Comic>, b: seq<Comic>)
    requires Distinct(a) && Distinct(b)
  {
    ViewOf(TableOf(a)) == ViewOf(TableOf(b))
  }

  lemma FindComic(a: seq<Comic>, b: seq<Comic>, i: nat) returns (j: nat)
    requires Distinct(a) && Distinct(b) && SameComics(a, b) && i < |a|
    ensures j < |b| && b[j].id == a[i].id && b[j].url == a[i].url && ToSet(b[j].words) == ToSet(a[i].words)
  {
    var id := a[i].id;
    assert a[i] in a;
    assert TableOf(a)[id] == Row(a[i].url, a[i].words);
    assert id in ViewOf(TableOf(a)) && id in ViewOf(TableOf(b));
    assert id in TableOf(b);
    j :| 0 <= j < |b| && b[j].id == id;
    assert b[j] in b;
    assert TableOf(b)[id] == Row(b[j].url, b[j].words);
    assert ViewOf(TableOf(b))[id] == EntryOf(TableOf(b)[id]);
    assert ViewOf(TableOf(a))[id] == EntryOf(TableOf(a)[id]);
  }

  lemma ViewAt(rows: seq<Comic>, i: nat)
    requires Distinct(rows) && i < |rows|
    ensures rows[i].id in ViewOf(TableOf(rows))
    ensures ViewOf(TableOf(rows))[rows[i].id] == Entry(rows[i].url, ToSet(rows[i].words))
  {
    assert rows[i] in rows;
    assert TableOf(rows)[rows[i].id] == Row(rows[i].url, rows[i].words);
  }

  lemma RowAt(rows: seq<Comic>, id: int) returns (i: nat)
    requires Distinct(rows) && id in ViewOf(TableOf(rows))
    ensures i < |rows| && rows[i].id == id
  {
    assert id in TableOf(rows);
    i :| 0 <= i < |rows| && rows[i].id == id;
  }

  function Without(rows: seq<Comic>, j: nat): seq<Comic>
    requires j < |rows|
  {
    rows[..j] + rows[j + 1..]
  }

  lemma {:induction false} TotalWithout(rows: seq<Comic>, j: nat)
    requires j < |rows|
    ensures TotalWords(rows) == TotalWords(Without(rows, j)) + |rows[j].words|
  {
    var n := |rows| - 1;
    if j == n {
      assert Without(rows, j) == rows[..n];
    } else {
      TotalWithout(rows[..n], j);
      assert Without(rows, j) == Without(rows[..n], j) + [rows[n]];
      AllWordsSnoc(Without(rows[..n], j), rows[n]);
    }
  }

  lemma WithoutAt(rows: seq<Comic>, j: nat)
    requires Distinct(rows) && j < |rows|
    ensures Distinct(Without(rows, j))
    ensures forall i :: 0 <= i < |rows| - 1 ==> Without(rows, j)[i] == if i < j then rows[i] else rows[i + 1]
    ensures CleanWords(rows) ==> CleanWords(Without(rows, j))
  {
  }

  /** `rows[j]` is `c`, up to the order of the words. */
  predicate Stands(rows: seq<Comic>, j: int, c: Comic) {
    0 <= j < |rows| && rows[j].id == c.id && ToSet(rows[j].words) == ToSet(c.words)
  }

  ghost predicate Has(rows: seq<Comic>, c: Comic) {
    exists j :: Stands(rows, j, c)
  }

  /** Every comic of `a` is in `b`. */
  ghost predicate Listed(a: seq<Comic>, b: seq<Comic>) {
    forall i :: 0 <= i < |a| ==> Has(b, a[i])
  }

  lemma RemoveListed(a: seq<Comic>, b: seq<Comic>, i: nat, j: nat)
    requires Distinct(a) && Distinct(b) && Listed(a, b)
    requires i < |a| && j < |b| && a[i].id == b[j].id
    ensures Listed(Without(a, i), Without(b, j))
  {
    var c, d := Without(a, i), Without(b, j);
    WithoutAt(a, i);
    WithoutAt(b, j);
    forall n | 0 <= n < |c| ensures Has(d, c[n]) {
      var n' := if n < i then n else n + 1;
      assert Has(b, a[n']);
      var m' :| Stands(b, m', a[n']);
      assert m' != j;
      assert Stands(d, if m' < j then m' else m' - 1, c[n]);
    }
  }

  lemma SameLength(rows: seq<Comic>, j: nat, c: Comic)
    requires CleanWords(rows) && NoDup(c.words) && Stands(rows, j, c)
    ensures |rows[j].words| == |c.words|
  {
    NoDupCardinality(rows[j].words);
    NoDupCardinality(c.words);
  }

  lemma {:induction false} ListedSameTotal(a: seq<Comic>, b: seq<Comic>)
    requires Distinct(a) && Distinct(b) && Listed(a, b) && Listed(b, a) && CleanWords(a) && CleanWords(b)
    ensures TotalWords(a) == TotalWords(b) && |a| == |b|
    decreases |a|
  {
    if b != [] {
      assert Has(a, b[0]);
    }
    if a == [] {
    } else {
      assert Has(b, a[0]);
      var j :| Stands(b, j, a[0]);
      SameLength(b, j, a[0]);
      RemoveListed(a, b, 0, j);
      RemoveListed(b, a, j, 0);
      WithoutAt(a, 0);
      WithoutAt(b, j);
      TotalWithout(a, 0);
      TotalWithout(b, j);
      ListedSameTotal(Without(a, 0), Without(b, j));
    }
  }

  lemma ViewsListed(a: seq<Comic>, b: seq<Comic>)
    requires Distinct(a) && Distinct(b) && SameComics(a, b)
    ensures Listed(a, b)
  {
    forall i | 0 <= i < |a| ensures Has(b, a[i]) {
      var j := FindComic(a, b, i);
      assert Stands(b, j, a[i]);
    }
  }

  lemma RowCount(rows: seq<Comic>)
    requires Distinct(rows)
    ensures |ViewOf(TableOf(rows))| == |rows|
  {
    var ids := seq(|rows|, i requires 0 <= i < |rows| => rows[i].id);
    var keys := ViewOf(TableOf(rows)).Keys;
    NoDupCardinality(ids);
    forall id | id in keys ensures id in ToSet(ids) {
      var i := RowAt(rows, id);
      assert ids[i] == id;
    }
    forall id | id in ToSet(ids) ensures id in keys {
      var i :| 0 <= i < |ids| && ids[i] == id;
      ViewAt(rows, i);
    }
    assert keys == ToSet(ids);
    assert |keys| == |ViewOf(TableOf(rows))|;
  }

  lemma SomeWords(a: seq<Comic>, b: seq<Comic>)
    requires Distinct(a) && Distinct(b) && SameComics(a, b)
    ensures AllWords(a) <= AllWords(b)
  {
    forall w | w in AllWords(a) ensures w in AllWords(b) {
      var i :| 0 <= i < |a| && w in a[i].words;
      var j := FindComic(a, b, i);
      assert w in ToSet(b[j].words) && b[j] in b;
    }
  }

  /** The figures do not depend on the order of rows or words. */
  lemma SameComicsSameStats(a: seq<Comic>, b: seq<Comic>)
    requires Distinct(a) && Distinct(b) && SameComics(a, b) && CleanWords(a) && CleanWords(b)
    ensures StatsOf(a) == StatsOf(b)
  {
    ViewsListed(a, b);
    ViewsListed(b, a);
    ListedSameTotal(a, b);
    SomeWords(a, b);
    SomeWords(b, a);
    assert AllWords(a) == AllWords(b);
  }

  /** An inserted comic counts once, with all its words; an empty table counts nothing. */
  lemma StatsOfAdd(rows: seq<Comic>, c: Comic)
    ensures StatsOf(rows + [c]).comicsFetched == StatsOf(rows).comicsFetched + 1
    ensures StatsOf(rows + [c]).wordsTotal == StatsOf(rows).wordsTotal + |c.words|
    ensures StatsOf([]) == DBStats(0, 0, 0)
  {
    AllWordsSnoc(rows, c);
    assert AllWords([]) == {};
  }
}
