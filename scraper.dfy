/**
 * The per-result extraction of `scrape_imdb_action_movies`. The browser is not
 * modelled: each search-result container arrives as a `Container` value that
 * holds what the CSS-selector lookups would find in it.
 */
module Scraper {
  import opened Wrappers
  import opened Strings
  import opened Records

  /** One search-result container, as the page shows it. */
  datatype Container = Container(
    /** text of the `.ipc-title__text` element; `None` when the element is missing */
    titleText: Option<string>,
    /** texts of the `.dli-title-metadata-item` elements, in page order */
    metadata: seq<string>,
    /** the rating star element: `None` when missing, `Some(None)` when it has no aria-label */
    ratingLabel: Option<Option<string>>,
    /** text of the `.ipc-rating-star--voteCount` element; `None` when missing */
    voteText: Option<string>)

  /** The characters `lstrip` removes from the front of a title. */
  const RankChars: set<char> := {'0', '1', '2', '3', '4', '5', '6', '7', '8', '9', '.', ' '}

  /** The text removed from the rating label. */
  const RatingPrefix: string := "Rating: "

  function ExtractTitle(titleText: Option<string>): (c: Cell)
    ensures titleText.None? <==> c.Missing?
    ensures titleText.Some? ==> c.Text?
    ensures titleText.Some? ==>
      var s, t := titleText.value, c.text;
      |t| <= |s| && t == s[|s| - |t|..]
      && (forall i :: 0 <= i < |s| - |t| ==> s[i] in RankChars)
      && (t == [] || t[0] !in RankChars)
  {
    match titleText
    case None => Missing
    case Some(s) => Text(TrimStart(s, RankChars))
  }

  /** The metadata text at `index`, or missing when there are not enough items. */
  function MetadataAt(items: seq<string>, index: nat): (c: Cell)
    ensures c.Missing? <==> |items| <= index
    ensures index < |items| ==> c == Text(items[index])
  {
    if |items| > index then Text(items[index]) else Missing
  }

  function ExtractRating(star: Option<Option<string>>): (c: Cell)
    ensures c.Missing? <==> star.None? || star.value.None?
    ensures c.Text? ==> !Contains(star.value.value, RatingPrefix) ==> c.text == star.value.value
    ensures c.Text? ==> |c.text| <= |star.value.value|
    ensures c.Text? ==> c.text == RemoveAll(star.value.value, RatingPrefix)
  {
    match star
    case Some(Some(l)) => Text(RemoveAll(l, RatingPrefix))
    case _ => Missing
  }

  function ExtractVotes(voteText: Option<string>): (c: Cell)
    ensures voteText.None? <==> c.Missing?
    ensures voteText.Some? ==> c == Text(voteText.value)
  {
    match voteText
    case None => Missing
    case Some(s) => Text(s)
  }

  /** The record built for one container; `genre` is the caller's label. Every
      field is text or missing, each taken from its own element, and the first
      three metadata items give Year, Duration and Censor. */
  function ExtractRow(c: Container, genre: string): (r: Row)
    ensures r.genre == Text(genre)
    ensures !r.title.Num? && !r.year.Num? && !r.duration.Num? && !r.censor.Num? && !r.rating.Num? && !r.voteCount.Num?
    ensures r.title.Missing? <==> c.titleText.None?
    ensures r.rating.Missing? <==> c.ratingLabel.None? || c.ratingLabel.value.None?
    ensures r.voteCount == if c.voteText.None? then Missing else Text(c.voteText.value)
    ensures r.year == if |c.metadata| > 0 then Text(c.metadata[0]) else Missing
    ensures r.duration == if |c.metadata| > 1 then Text(c.metadata[1]) else Missing
    ensures r.censor == if |c.metadata| > 2 then Text(c.metadata[2]) else Missing
  {
    Row(
      title := ExtractTitle(c.titleText),
      year := MetadataAt(c.metadata, 0),
      duration := MetadataAt(c.metadata, 1),
      censor := MetadataAt(c.metadata, 2),
      rating := ExtractRating(c.ratingLabel),
      voteCount := ExtractVotes(c.voteText),
      genre := Text(genre))
  }

  /** The batch the scraper returns: one record per container, in page order. */
  function ExtractBatch(containers: seq<Container>, genre: string): (rows: seq<Row>)
    ensures |rows| == |containers|
  {
    seq(|containers|, i requires 0 <= i < |containers| => ExtractRow(containers[i], genre))
  }

  /** The loop of `scrape_imdb_action_movies`: append one record per container. */
  method Scrape(containers: seq<Container>, genre: string) returns (moviesData: seq<Row>)
    ensures moviesData == ExtractBatch(containers, genre)
    ensures forall i :: 0 <= i < |moviesData| ==> moviesData[i].genre == Text(genre)
  {
    moviesData := [];
    for k := 0 to |containers|
      invariant |moviesData| == k
      invariant forall i :: 0 <= i < k ==> moviesData[i] == ExtractRow(containers[i], genre)
    {
      var container := containers[k];
      var title := ExtractTitle(container.titleText);
      var year := MetadataAt(container.metadata, 0);
      var duration := MetadataAt(container.metadata, 1);
      var censor := MetadataAt(container.metadata, 2);
      var rating := ExtractRating(container.ratingLabel);
      var voteCount := ExtractVotes(container.voteText);
      moviesData := moviesData + [Row(title, year, duration, censor, rating, voteCount, Text(genre))];
    }
  }

  /** A missing title element leaves every other field as it was. */
  lemma MissingTitleIsolated(c: Container, genre: string)
    ensures ExtractRow(c.(titleText := None), genre) == ExtractRow(c, genre).(title := Missing)
  {
  }

  /** A missing rating element, or one without an aria-label, leaves every other
      field as it was. */
  lemma MissingRatingIsolated(c: Container, genre: string, star: Option<Option<string>>)
    requires star.None? || star.value.None?
    ensures ExtractRow(c.(ratingLabel := star), genre) == ExtractRow(c, genre).(rating := Missing)
  {
  }

  /** Metadata items past the third are ignored. */
  lemma ExtraMetadataIgnored(c: Container, genre: string, more: seq<string>)
    requires |c.metadata| >= 3
    ensures ExtractRow(c.(metadata := c.metadata + more), genre) == ExtractRow(c, genre)
  {
  }

  /** A rank such as "7. " in front of a title is removed. */
  lemma RankedTitle(name: string)
    requires name == [] || name[0] !in RankChars
    ensures ExtractTitle(Some("7. " + name)) == Text(name)
  {
    TrimStartAfter("7. ", name, RankChars);
  }

  /** Leading digits are removed even when they belong to the name. */
  lemma NumericTitleErased()
    ensures ExtractTitle(Some("1. 1917")) == Text("")
  {
    TrimStartAfter("1. 1917", "", RankChars);
    assert "1. 1917" + "" == "1. 1917";
  }

  /** A label "Rating: x" gives "x" when x itself does not contain the prefix. */
  lemma RatingLabelStripped(x: string)
    requires !Contains(x, RatingPrefix)
    ensures ExtractRating(Some(Some(RatingPrefix + x))) == Text(x)
  {
    PrefixRemoved(RatingPrefix, x);
  }

  /** Only the first "Rating: " of a label is removed when nothing before it
      completes another one; the text around it is kept. */
  lemma RatingInsideLabel(a: string, x: string)
    requires !Contains(a + RatingPrefix[..|RatingPrefix| - 1], RatingPrefix)
    requires !Contains(x, RatingPrefix)
    ensures ExtractRating(Some(Some(a + RatingPrefix + x))) == Text(a + x)
  {
    RemoveAllFirst(a, RatingPrefix, x);
  }
}
