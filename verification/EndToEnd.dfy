/** From the comics site to the answers of the search: the parts put together. */
module EndToEnd {
  import opened Common
  import opened Engine
  import opened EngineRefinement
  import EngineDrive
  import opened History
  import opened HistoryRefinement
  import opened Words
  import opened Xkcd
  import opened Storage
  import opened Search
  import SearchLaws

  /** The hits a search ought to have, as the updater sees the site. */
  function SourceHits(src: Source, last: int, q: set<string>): set<Hit> {
    set id | 1 <= id <= last && src.find(id).Some? && src.norm(src.find(id).value.description) * q != {}
      :: Hit(id, src.find(id).value.url, |src.norm(src.find(id).value.description) * q|)
  }

  lemma HitsOfFinishedTable(src: Source, last: int, rows: seq<Comic>, q: set<string>)
    requires Distinct(rows) && ViewOf(TableOf(rows)) == Sequential(src, map[], last)
    ensures Hits(rows, q) == SourceHits(src, last, q)
  {
    SequentialIs(src, map[], last);
    forall h | h in Hits(rows, q) ensures h in SourceHits(src, last, q) {
      var i :| 0 <= i < |rows| && Overlaps(rows[i], q) && h == HitOf(rows[i], q);
      ViewAt(rows, i);
    }
    forall h | h in SourceHits(src, last, q) ensures h in Hits(rows, q) {
      var id :| 1 <= id <= last && src.find(id).Some?
                && src.norm(src.find(id).value.description) * q != {}
                && h == Hit(id, src.find(id).value.url, |src.norm(src.find(id).value.description) * q|);
      var i := RowAt(rows, id);
      ViewAt(rows, i);
      assert rows[i] in rows && HitOf(rows[i], q) == h;
    }
  }

  /** The words and the address shown on the site under `id`. */
  function WordsAt(site: int -> Response, lex: Lexicon, id: int): set<string> {
    if id == 404 then NormSet(lex, "404 Not Found")
    else if site(id).Answer? then PageWords(lex, site(id).page) else {}
  }

  function UrlAt(site: int -> Response, id: int): string {
    if id != 404 && site(id).Answer? then site(id).page.img else ""
  }

  /** The hits a search ought to have, read off the pages of the site and the normaliser alone. */
  function SiteHits(site: int -> Response, lex: Lexicon, last: int, q: set<string>): set<Hit> {
    set id | 1 <= id <= last && WordsAt(site, lex, id) * q != {}
      :: Hit(id, UrlAt(site, id), |WordsAt(site, lex, id) * q|)
  }

  lemma SourceAt(site: int -> Response, lex: Lexicon, last: int, id: int)
    requires !lex.isWordRune(' ')
    ensures var found := SourceOf(site, lex, last).find(id);
            && (found.None? ==> WordsAt(site, lex, id) == {})
            && (found.Some? ==> found.value.url == UrlAt(site, id)
                                && NormSet(lex, found.value.description) == WordsAt(site, lex, id))
  {
    GetAnswers(id, site(id));
    if id != 404 {
      WordsOfComic(site, lex, last, id);
    }
  }

  lemma HitsOfSite(site: int -> Response, lex: Lexicon, last: int, q: set<string>)
    requires !lex.isWordRune(' ')
    ensures SourceHits(SourceOf(site, lex, last), last, q) == SiteHits(site, lex, last, q)
  {
    forall id ensures var found := SourceOf(site, lex, last).find(id);
                      && (found.None? ==> WordsAt(site, lex, id) == {})
                      && (found.Some? ==> found.value.url == UrlAt(site, id)
                                          && NormSet(lex, found.value.description) == WordsAt(site, lex, id))
    {
      SourceAt(site, lex, last, id);
    }
  }

  /** A history of the deployed service from an empty table, without drops, with a finished update in it. */
  ghost predicate Indexed(src: Source, n: nat, acts: seq<Act>, h: System, rows: seq<Comic>) {
    && n >= 1 && HonestPast(src, Start(n, Broker, map[]), acts, h)
    && (forall i :: 0 <= i < |acts| ==> KeepsTable(acts[i]))
    && h.log != []
    && Distinct(rows) && TableOf(rows) == h.db
  }

  /**
   * Whatever the schedules, failures and cancellations on the way were, once an
   * update has announced itself the search answers with the best `limit` hits of
   * the site: those of a set that mentions its pages, but no table and no schedule.
   */
  lemma SearchAnswersForTheSite(site: int -> Response, lex: Lexicon, last: int, n: nat, acts: seq<Act>, h: System,
                                rows: seq<Comic>, phrase: string, words: seq<string>, limit: int, out: seq<Hit>)
    requires NumberedPages(site) && Indexed(SourceOf(site, lex, last), n, acts, h, rows) && !lex.isWordRune(' ')
    requires ToSet(words) == NormSet(lex, phrase)
    requires IsTopK(rows, ToSet(words), EffectiveLimit(limit), out)
    ensures var all := SiteHits(site, lex, last, NormSet(lex, phrase));
            && Ranked(out) && ToSet(out) <= all && |out| == Min(EffectiveLimit(limit), |all|)
            && forall x, y :: x in all && x !in out && y in out ==> Before(y, x)
  {
    var src := SourceOf(site, lex, last);
    SourceIsKeyed(site, lex, last);
    Resumption(src, n, map[], acts, h);
    assert ViewOf(map[]) == map[];
    HitsOfFinishedTable(src, last, rows, ToSet(words));
    HitsOfSite(site, lex, last, ToSet(words));
  }

  /** Two such services, however they ran, give the same answers and show the same figures. */
  lemma ServicesAgree(site: int -> Response, lex: Lexicon, last: int,
                      m: nat, p: seq<Act>, g: System, a: seq<Comic>,
                      n: nat, q: seq<Act>, h: System, b: seq<Comic>,
                      v: seq<string>, w: seq<string>, limit: int)
    requires NumberedPages(site) && ToSet(v) == ToSet(w)
    requires Indexed(SourceOf(site, lex, last), m, p, g, a) && Indexed(SourceOf(site, lex, last), n, q, h, b)
    ensures Query(a, ToSet(v), EffectiveLimit(limit)) == Query(b, ToSet(w), EffectiveLimit(limit))
    ensures StatsOf(a) == StatsOf(b)
  {
    var src := SourceOf(site, lex, last);
    SourceIsKeyed(site, lex, last);
    Resumption(src, m, map[], p, g);
    Resumption(src, n, map[], q, h);
    var k := EffectiveLimit(limit);
    QueryIsTopK(a, ToSet(v), k);
    QueryIsTopK(b, ToSet(w), k);
    SearchLaws.SearchDependsOnSets(a, b, v, w, k, Query(a, ToSet(v), k), Query(b, ToSet(w), k));
    IndexedRowsClean(src, m, p, g, a);
    IndexedRowsClean(src, n, q, h, b);
    SameComicsSameStats(a, b);
  }

  lemma IndexedRowsClean(src: Source, n: nat, acts: seq<Act>, h: System, rows: seq<Comic>)
    requires Keyed(src) && Indexed(src, n, acts, h, rows)
    ensures CleanWords(rows)
  {
    RowsStayClean(src, Start(n, Broker, map[]), acts, h);
    forall i | 0 <= i < |rows| ensures NoDup(rows[i].words) {
      assert rows[i] in rows;
      assert h.db[rows[i].id] == Row(rows[i].url, rows[i].words);
    }
  }

  /** After a finished update from an empty table the statistics show as many comics as the site has. */
  lemma EverythingFetched(site: int -> Response, lex: Lexicon, last: int, n: nat, acts: seq<Act>, h: System,
                          rows: seq<Comic>)
    requires NumberedPages(site) && Indexed(SourceOf(site, lex, last), n, acts, h, rows)
    requires forall id :: 1 <= id <= last && id != 404 ==> site(id).Answer?
    ensures StatsOf(rows).comicsFetched == if last > 0 then last else 0
  {
    var src := SourceOf(site, lex, last);
    SourceIsKeyed(site, lex, last);
    Resumption(src, n, map[], acts, h);
    assert ViewOf(map[]) == map[];
    FetchedEqualsTotal(site, lex, last);
    RowCount(rows);
  }

  // ----- The figures shown while an update runs -----

  /** The words of the comic `id`, if the site has it and the table does not. */
  function NewWords(src: Source, known: View, id: int): set<string> {
    if id in known || src.find(id).None? then {} else src.norm(src.find(id).value.description)
  }

  /** The words of the comics the site has and the table does not. */
  function MissingWords(src: Source, last: int, known: View): set<string> {
    set id, w | 1 <= id <= last && w in NewWords(src, known, id) :: w
  }

  /** A table that an update from `start` may leave or pass through, whatever fails on the way. */
  ghost predicate OnTheWay(src: Source, last: int, start: seq<Comic>, rows: seq<Comic>) {
    && start <= rows && Distinct(rows)
    && Between(src, last, ViewOf(TableOf(start)), ViewOf(TableOf(rows)))
  }

  lemma WordsOfRow(src: Source, last: int, start: seq<Comic>, rows: seq<Comic>, i: nat)
    requires OnTheWay(src, last, start, rows) && i < |rows|
    ensures ToSet(rows[i].words) <= AllWords(start) + NewWords(src, ViewOf(TableOf(start)), rows[i].id)
    ensures rows[i].id in ViewOf(TableOf(start)) || 1 <= rows[i].id <= last
  {
    ViewAt(rows, i);
    if rows[i].id in ViewOf(TableOf(start)) {
      var j := RowAt(start, rows[i].id);
      assert rows[j] == start[j];
      assert start[j] in start;
    }
  }

  lemma WordsOnTheWay(src: Source, last: int, start: seq<Comic>, rows: seq<Comic>)
    requires OnTheWay(src, last, start, rows)
    ensures AllWords(rows) <= AllWords(start) + MissingWords(src, last, ViewOf(TableOf(start)))
  {
    var known := ViewOf(TableOf(start));
    forall w | w in AllWords(rows) ensures w in AllWords(start) + MissingWords(src, last, known) {
      var i :| 0 <= i < |rows| && w in rows[i].words;
      WordsOfRow(src, last, start, rows, i);
      assert w in ToSet(rows[i].words);
      assert w in AllWords(start) || w in NewWords(src, known, rows[i].id);
    }
  }

  lemma FreeKey(rows: seq<Comic>, id: int)
    requires Distinct(rows) && id !in ViewOf(TableOf(rows))
    ensures forall i :: 0 <= i < |rows| ==> rows[i].id != id
  {
    forall i | 0 <= i < |rows| ensures rows[i].id != id {
      ViewAt(rows, i);
    }
  }

  lemma AppendRow(rows: seq<Comic>, c: Comic)
    requires Distinct(rows) && c.id !in ViewOf(TableOf(rows))
    ensures Distinct(rows + [c])
    ensures ViewOf(TableOf(rows + [c])) == ViewOf(TableOf(rows))[c.id := Entry(c.url, ToSet(c.words))]
  {
    FreeKey(rows, c.id);
    TableOfAdd(rows, c);
  }

  lemma MissingWordsStep(src: Source, last: int, known: View)
    requires last > 0
    ensures MissingWords(src, last, known) == MissingWords(src, last - 1, known) + NewWords(src, known, last)
  {
  }

  /** The rows after an update in which nothing went wrong, in the order of the ids. */
  lemma {:induction false} FillUp(src: Source, last: int, start: seq<Comic>) returns (rows: seq<Comic>)
    requires Distinct(start)
    ensures start <= rows && Distinct(rows)
    ensures ViewOf(TableOf(rows)) == Sequential(src, ViewOf(TableOf(start)), last)
    ensures AllWords(start) + MissingWords(src, last, ViewOf(TableOf(start))) <= AllWords(rows)
    decreases if last > 0 then last else 0
  {
    var known := ViewOf(TableOf(start));
    if last <= 0 {
      rows := start;
      assert MissingWords(src, last, known) == {};
    } else {
      rows := FillUp(src, last - 1, start);
      SequentialIs(src, known, last - 1);
      MissingWordsStep(src, last, known);
      if last !in known && src.find(last).Some? {
        var info := src.find(last).value;
        var words := EngineDrive.ListOf(src.norm(info.description));
        AppendRow(rows, Comic(last, info.url, words));
        AllWordsSnoc(rows, Comic(last, info.url, words));
        rows := rows + [Comic(last, info.url, words)];
      }
    }
  }

  /** All the words there can be are there after an update in which nothing went wrong. */
  lemma AllWordsCome(src: Source, last: int, start: seq<Comic>) returns (rows: seq<Comic>)
    requires Distinct(start)
    ensures OnTheWay(src, last, start, rows)
    ensures AllWords(rows) == AllWords(start) + MissingWords(src, last, ViewOf(TableOf(start)))
  {
    rows := FillUp(src, last, start);
    SequentialIs(src, ViewOf(TableOf(start)), last);
    assert OnTheWay(src, last, start, rows);
    WordsOnTheWay(src, last, start, rows);
  }

  lemma FewerWordsComeIn(src: Source, last: int, start: seq<Comic>, rows: seq<Comic>)
    requires OnTheWay(src, last, start, rows)
    requires |AllWords(start) + MissingWords(src, last, ViewOf(TableOf(start)))| <= TotalWords(start)
    ensures AlwaysFits(start, rows)
  {
    WordsOnTheWay(src, last, start, rows);
    SubsetCardinality(AllWords(rows), AllWords(start) + MissingWords(src, last, ViewOf(TableOf(start))));
    AlwaysFitsIff(start, rows);
  }

  /** Every reply of `Stats` during an update from `start`, however far the update gets, fits together. */
  ghost predicate StatsAlwaysFit(src: Source, last: int, start: seq<Comic>) {
    forall rows :: OnTheWay(src, last, start, rows) ==> AlwaysFits(start, rows)
  }

  /**
   * What a caller can tell before the call: the figures are bound to fit exactly
   * when the words of the table and of the missing comics together are no more
   * than the words in the table counted with repetition.
   */
  lemma StatsAlwaysFitIff(src: Source, last: int, start: seq<Comic>)
    requires Distinct(start)
    ensures StatsAlwaysFit(src, last, start) <==>
              |AllWords(start) + MissingWords(src, last, ViewOf(TableOf(start)))| <= TotalWords(start)
  {
    if |AllWords(start) + MissingWords(src, last, ViewOf(TableOf(start)))| <= TotalWords(start) {
      forall rows | OnTheWay(src, last, start, rows) ensures AlwaysFits(start, rows) {
        FewerWordsComeIn(src, last, start, rows);
      }
    } else {
      var full := AllWordsCome(src, last, start);
      AlwaysFitsIff(start, full);
    }
  }
}
