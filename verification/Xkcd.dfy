/** The client of the comics site, as far as it decides what `Get` returns. */
module Xkcd {
  import opened Common
  import opened Engine
  import opened EngineRefinement
  import opened Words

  datatype Page = Page(num: int, img: string, title: string, safeTitle: string, transcript: string, alt: string)

  /** How a request can end. */
  datatype Response =
    | Unreachable(code: int)
    | StatusNotFound
    | Undecodable(code: int)
    | Answer(page: Page)

  function Description(p: Page): string {
    p.title + " " + p.safeTitle + " " + p.transcript + " " + p.alt
  }

  function Decode(r: Response): Result<Info> {
    match r
    case Unreachable(code) => Err(Other(code))
    case StatusNotFound => Err(NotFound)
    case Undecodable(code) => Err(Other(code))
    case Answer(p) => Ok(Info(p.num, p.img, Description(p)))
  }

  /** Comic 404 does not exist on the site and is made up here. */
  function Get(id: int, r: Response): Result<Info> {
    if id == 404 then Ok(Info(404, "", "404 Not Found")) else Decode(r)
  }

  /** The site's stable answers, seen through the client and the normaliser. */
  function SourceOf(site: int -> Response, lex: Lexicon, last: int): Source {
    Source(
      id => match Get(id, site(id)) case Ok(info) => Some(info) case Err(_) => None,
      text => NormSet(lex, text),
      last)
  }

  ghost predicate NumberedPages(site: int -> Response) {
    forall id :: site(id).Answer? ==> site(id).page.num == id
  }

  lemma SourceIsKeyed(site: int -> Response, lex: Lexicon, last: int)
    requires NumberedPages(site)
    ensures Keyed(SourceOf(site, lex, last))
  {
    var src := SourceOf(site, lex, last);
    forall id | src.find(id).Some? ensures src.find(id).value.id == id {
      assert site(id).Answer? || id == 404;
    }
  }

  /** What the updater gets for each answer of the site, and for the comic made up here. */
  lemma GetAnswers(id: int, r: Response)
    ensures Get(id, r) == Err(NotFound) <==> id != 404 && r.StatusNotFound?
    ensures Get(id, r).Err? <==> id != 404 && !r.Answer?
    ensures Get(id, r) != Err(Canceled)
    ensures id == 404 ==> Get(id, r) == Ok(Info(404, "", "404 Not Found"))
    ensures id != 404 && r.Answer? ==>
              && Get(id, r).Ok?
              && Get(id, r).value.id == r.page.num && Get(id, r).value.url == r.page.img
              && Get(id, r).value.description ==
                 r.page.title + " " + r.page.safeTitle + " " + r.page.transcript + " " + r.page.alt
  {
  }

  /** The words of a comic's title, safe title, transcript and alt text together. */
  function PageWords(lex: Lexicon, p: Page): set<string> {
    NormSet(lex, p.title) + NormSet(lex, p.safeTitle) + NormSet(lex, p.transcript) + NormSet(lex, p.alt)
  }

  lemma WordsOfDescription(lex: Lexicon, p: Page)
    requires !lex.isWordRune(' ')
    ensures NormSet(lex, p.title + " " + p.safeTitle + " " + p.transcript + " " + p.alt) == PageWords(lex, p)
  {
    var a := p.title + " " + p.safeTitle;
    var b := a + " " + p.transcript;
    NormOfSeparated(lex, p.title, " ", p.safeTitle);
    NormOfSeparated(lex, a, " ", p.transcript);
    NormOfSeparated(lex, b, " ", p.alt);
  }

  /** What is stored for a comic: its own address, and the words of its four parts. */
  lemma WordsOfComic(site: int -> Response, lex: Lexicon, last: int, id: int)
    requires !lex.isWordRune(' ') && id != 404
    ensures var src := SourceOf(site, lex, last);
            && (src.find(id).Some? <==> site(id).Answer?)
            && (site(id).Answer? ==>
                  Fetched(src, src.find(id).value) == Entry(site(id).page.img, PageWords(lex, site(id).page)))
  {
    GetAnswers(id, site(id));
    if site(id).Answer? {
      WordsOfDescription(lex, site(id).page);
    }
  }

  lemma {:induction false} SequentialSize(src: Source, last: int)
    requires forall id :: 1 <= id <= last ==> src.find(id).Some?
    ensures |Sequential(src, map[], last)| == if last > 0 then last else 0
    decreases if last > 0 then last else 0
  {
    if last <= 0 {
    } else {
      SequentialSize(src, last - 1);
      SequentialIs(src, map[], last - 1);
      var before := Sequential(src, map[], last - 1);
      assert before[last := Fetched(src, src.find(last).value)].Keys == before.Keys + {last};
    }
  }

  /**
   * "Fetched" equals "total": from an empty table, with a page for every number
   * but 404, a complete update leaves exactly as many comics as the last number.
   */
  lemma FetchedEqualsTotal(site: int -> Response, lex: Lexicon, last: int)
    requires forall id :: 1 <= id <= last && id != 404 ==> site(id).Answer?
    ensures |Sequential(SourceOf(site, lex, last), map[], last)| == if last > 0 then last else 0
  {
    var src := SourceOf(site, lex, last);
    forall id | 1 <= id <= last ensures src.find(id).Some? {
      assert Get(id, site(id)).Ok?;
    }
    SequentialSize(src, last);
  }
}
