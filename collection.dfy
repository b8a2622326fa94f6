/**
 * The data-collection page: it makes sure the session holds a table, checks
 * the submitted URL and genre, runs the scraper and appends what it returns.
 */
module Collection {
  import opened Strings
  import opened Records
  import opened Scraper
  import opened Session

  /** The substring a search URL must contain. */
  const SearchMarker: string := "imdb.com/search/"

  /** What the checks on the form's two fields decide. */
  datatype Verdict =
    | MissingInput  // a warning: the URL or the genre is empty
    | InvalidUrl    // an error: the URL is not a search URL
    | Accepted      // the scraper runs

  function Validate(url: string, genre: string): (v: Verdict)
    ensures v.MissingInput? <==> url == [] || genre == []
    ensures v.InvalidUrl? <==> url != [] && genre != [] && !Contains(url, SearchMarker)
    ensures v.Accepted? <==> url != [] && genre != [] && Contains(url, SearchMarker)
  {
    if url == [] || genre == [] then MissingInput
    else if !Contains(url, SearchMarker) then InvalidUrl
    else Accepted
  }

  /** `pat` occurs in any string that has it after some prefix. */
  lemma {:induction false} ContainsAfter(prefix: string, pat: string, rest: string)
    ensures Contains(prefix + pat + rest, pat)
  {
    if prefix == [] {
      assert prefix + pat + rest == pat + rest;
    } else {
      assert (prefix + pat + rest)[1..] == prefix[1..] + pat + rest;
      ContainsAfter(prefix[1..], pat, rest);
    }
  }

  /** Any URL with the search path, such as the form's default
      "https://www.imdb.com/search/title/?...", passes with a non-empty genre. */
  lemma SearchUrlAccepted(prefix: string, rest: string, genre: string)
    requires genre != []
    ensures Validate(prefix + SearchMarker + rest, genre) == Accepted
  {
    ContainsAfter(prefix, SearchMarker, rest);
  }

  /** What loading the page and reading its containers gives: the containers,
      or the exception raised by the browser. */
  datatype PageLoad = Loaded(containers: seq<Container>) | LoadFailed(reason: string)

  /** The message the page shows after a submission. */
  datatype SubmitOutcome =
    | Warned                    // "Please provide both a URL and a Genre."
    | Rejected                  // "Please enter a valid IMDb search URL."
    | Scraped(count: nat)       // "Successfully scraped <count> movies!"
    | ScrapeFailed(reason: string)  // "An error occurred: <reason>"

  /** The first lines of the page: create an empty table unless there is one. */
  method InitCollection(session: SessionState)
    modifies session
    ensures old(session.movieDf) == null ==> fresh(session.movieDf) && session.movieDf.rows == []
    ensures old(session.movieDf) != null ==> session.movieDf == old(session.movieDf)
    ensures session.movieDf != null && session.movieDf.rows == old(if session.movieDf == null then [] else session.movieDf.rows)
  {
    if session.movieDf == null {
      session.movieDf := new DataFrame([]);
    }
  }

  /** The form submission. `page` stands for what the browser returns for `url`. */
  method Submit(session: SessionState, url: string, genre: string, page: PageLoad) returns (outcome: SubmitOutcome)
    requires session.movieDf != null
    modifies session
    ensures session.movieDf != null
    ensures outcome.Warned? <==> Validate(url, genre).MissingInput?
    ensures outcome.Rejected? <==> Validate(url, genre).InvalidUrl?
    ensures outcome.Scraped? <==> Validate(url, genre).Accepted? && page.Loaded?
    ensures outcome.ScrapeFailed? <==> Validate(url, genre).Accepted? && page.LoadFailed?
    ensures outcome.Scraped? ==>
      outcome.count == |page.containers|
      && fresh(session.movieDf)
      && session.movieDf.rows == old(session.movieDf.rows) + ExtractBatch(page.containers, genre)
    ensures !outcome.Scraped? ==>
      session.movieDf == old(session.movieDf) && session.movieDf.rows == old(session.movieDf.rows)
  {
    var verdict := Validate(url, genre);
    if verdict == MissingInput {
      return Warned;
    } else if verdict == InvalidUrl {
      return Rejected;
    }
    match page
    case LoadFailed(reason) =>
      outcome := ScrapeFailed(reason);
    case Loaded(containers) =>
      var scraped := Scrape(containers, genre);
      session.movieDf := new DataFrame(session.movieDf.rows + scraped);
      outcome := Scraped(|scraped|);
  }

  /** Nothing removes duplicates: the same page submitted twice is appended twice. */
  method SubmitTwice(session: SessionState, url: string, genre: string, containers: seq<Container>)
    requires session.movieDf != null && Validate(url, genre) == Accepted
    modifies session
    ensures session.movieDf != null
    ensures session.movieDf.rows
      == old(session.movieDf.rows) + ExtractBatch(containers, genre) + ExtractBatch(containers, genre)
  {
    var first := Submit(session, url, genre, Loaded(containers));
    var second := Submit(session, url, genre, Loaded(containers));
  }
}
