# IMDb Data Insight Engine — a verified model of its collection and cleaning core

The application scrapes the result containers of an IMDb search page into a
table of movies (Title, Year, Duration, Censor, Rating, Vote Count, Genre),
keeps that table in the Streamlit session, appends every new scrape to it,
and, before plotting, coerces the Year, Rating and Vote Count columns to
numbers. This project models that core in Dafny:

- `scraper.dfy` (module `Scraper`): the per-container extraction of
  `scrape_imdb_action_movies` and the loop that builds the batch. A browser
  container is a plain value (`Container`) holding what the CSS lookups find.
- `collection.dfy` (module `Collection`): the data-collection page. It creates
  the session table, validates the URL and genre, scrapes and appends.
- `visualization.dfy` (module `Visualization`): the visualization page. It has
  the empty-table guard, the in-place column coercions, the vote-count text
  cleaning and the line-plot data (`dropna` + `sort_values`).
- `session.dfy` (module `Session`): the session state. A `DataFrame` is an
  object with a `rows` field. `SessionState.movieDf` is `null` until the key
  'movie_df' exists. The collection page replaces the table with a new object,
  as `pd.concat` returns a new frame. The visualization page writes into the
  object it shares with the session, as `df = st.session_state.movie_df` does.
- `strings.dfy`, `numeric.dfy`, `records.dfy`, `wrappers.dfy`: Python's string
  operations, numeric coercion over exact decimals, the row/cell model and
  `Option`.

A cell is `Missing` (Python `None` or pandas `NaN`), `Text`, or `Num` holding an
exact `Decimal` (integer mantissa and decimal scale). `pd.to_numeric(...,
errors='coerce')` is modelled as `ParseDecimal` over the grammar: optional
sign, digits, and optionally `.` followed by digits. Text outside the grammar
becomes `Missing`.

The code has no title-keyed de-duplication: a batch is
appended with `pd.concat`, and duplicates stay. Duration stays text, with no
conversion to minutes. Nothing is written to a file. There are no
genre/rating/vote/duration filters and no per-genre aggregates. The vote-count
cleaning drops the K/M/B scale letter without applying it, so "2.5K" becomes
2.5 (`ScaleLetterDropped`).

## Model

| member | source | states |
|---|---|---|
| `Scraper.ExtractTitle` | scraper.py:15-19 | a missing title element gives a missing Title; otherwise the Title is a suffix of the element text, everything removed before it is a digit, `.` or space, and it is empty or starts with another character |
| `Strings.TrimStart` | scraper.py:17 | `lstrip` leaves a string that is empty or starts with a character outside the set |
| `Strings.TrimStartAfter` | scraper.py:17 | a run of `drop` characters in front of a string that does not start with one is removed, and only that run |
| `Scraper.RankedTitle` | scraper.py:17 | "7. " in front of a name that does not start with a digit, `.` or space is removed, leaving the name |
| `Scraper.NumericTitleErased` | scraper.py:17 | `lstrip` removes a character set, not a "N. " prefix: "1. 1917" becomes the empty title |
| `Scraper.MetadataAt` | scraper.py:20-32 | the metadata text at a position is taken when the list is long enough and is missing otherwise, whatever the list's length |
| `Scraper.ExtraMetadataIgnored` | scraper.py:20-32 | metadata items past the third do not change the record |
| `Scraper.ExtractRating` | scraper.py:33-37 | Rating is missing exactly when the star element or its aria-label is missing; otherwise it is the label with every "Rating: " removed; a label without "Rating: " is kept unchanged |
| `Strings.RemoveAll` | scraper.py:35 | `replace(pat, '')` never lengthens the text and leaves text without `pat` unchanged |
| `Strings.RemoveAllFirst` | scraper.py:35 | when `a` holds no occurrence of `pat`, not even one ending inside a following `pat`, `replace` keeps `a`, removes that first `pat` and goes on with the rest |
| `Scraper.RatingInsideLabel` | scraper.py:35 | a label with one "Rating: " anywhere in it gives the label without that text |
| `Strings.PrefixRemoved` | scraper.py:35 | `pat` followed by text without `pat` loses exactly the leading `pat` |
| `Scraper.RatingLabelStripped` | scraper.py:35 | the label "Rating: x" gives the Rating "x" |
| `Scraper.ExtractVotes` | scraper.py:38-41 | Vote Count is the element text verbatim, or missing when the element is missing |
| `Scraper.ExtractRow` | scraper.py:15-50 | the record's Genre is the caller's genre and no field is a number; Title is missing exactly when the title element is; Rating is missing exactly when the star element or its aria-label is; Vote Count is the element text or missing; Year, Duration and Censor are the first, second and third metadata texts, each missing when the list is too short |
| `Scraper.MissingTitleIsolated` | scraper.py:15-50 | a missing title element changes only the Title of the record |
| `Scraper.MissingRatingIsolated` | scraper.py:33-50 | a missing rating element or aria-label changes only the Rating of the record |
| `Scraper.ExtractBatch` | scraper.py:42-52 | the batch has one record per container |
| `Scraper.Scrape` | scraper.py:12-52 | the loop returns, in container order, the record of each container, and every record's Genre is the caller's genre |
| `Strings.ContainsIffOccurs` | pages/1_Data_Collection.py:20 | `Contains`, Python's `pat in s`, holds exactly when `pat` occurs at some position of `s` |
| `Collection.Validate` | pages/1_Data_Collection.py:18-22 | an empty URL or genre gives the warning, a URL without "imdb.com/search/" gives the error, and only the remaining inputs are accepted |
| `Collection.ContainsAfter` | pages/1_Data_Collection.py:20 | a string holding `pat` after any prefix contains `pat` |
| `Collection.SearchUrlAccepted` | pages/1_Data_Collection.py:13-22 | any URL with the search path, such as the form's default, is accepted with a non-empty genre |
| `Collection.InitCollection` | pages/1_Data_Collection.py:8-9 | a missing table is created empty; an existing table is kept, object and rows |
| `Collection.Submit` | pages/1_Data_Collection.py:17-30 | warning and error leave the table untouched and do not scrape; a successful scrape replaces the table by the old rows followed by the batch and reports the batch size; a failed scrape leaves the table as it was |
| `Collection.SubmitTwice` | pages/1_Data_Collection.py:27 | no de-duplication: the same page submitted twice is appended twice |
| `Numeric.ParseDecimal` | pages/2_Data_Visualization.py:18-19 | coercion succeeds only on non-empty text that ends in a digit and holds only digits, points and a sign in front |
| `Numeric.ParseUnsignedSpec` | pages/2_Data_Visualization.py:18-19 | unsigned text parses exactly when it is a run of digits, or two runs of digits around one point; the value is the digits read as a whole number, scaled by the number of fraction digits |
| `Numeric.ParseUnsignedPointed` | pages/2_Data_Visualization.py:18-19 | text with one point between two runs of digits parses to the digits without the point, scaled by the number of digits after the point |
| `Numeric.ParseDecimalSpec` | pages/2_Data_Visualization.py:18-19 | coercion succeeds exactly on the numeral grammar (an optional sign, digits, optionally a point and digits); the value is the signed digit value at the fraction's scale |
| `Numeric.ParseFormat` | pages/2_Data_Visualization.py:23-24 | `Format`, the text `astype(str)` writes for a number, coerces back to the same decimal |
| `Numeric.FormatChars` | pages/2_Data_Visualization.py:23 | the text `Format` writes for a number is non-empty, ends in a digit and holds only digits, `.` and `-` |
| `Visualization.ToNumeric` | pages/2_Data_Visualization.py:18-19 | a coerced cell is never text; numbers stay; the result is missing exactly when the cell was missing or its text does not parse; parsable text becomes the number it parses to |
| `Visualization.ToNumericFormat` | pages/2_Data_Visualization.py:24 | a number written as text and coerced again is the same number |
| `Visualization.CleanVoteText` | pages/2_Data_Visualization.py:23 | the cleaned vote-count text holds none of `(`, `)`, `K`, `M`, `B` and has no whitespace at either end |
| `Strings.RemoveChars` | pages/2_Data_Visualization.py:23 | the regex removal never lengthens the text, leaves none of the removed characters, and leaves text without them unchanged |
| `Strings.Strip` | pages/2_Data_Visualization.py:23 | `strip()` leaves a string that is empty or neither starts nor ends with whitespace |
| `Strings.RemoveCharsKeeps` | pages/2_Data_Visualization.py:23 | every character outside the removed class is kept as often as it occurs |
| `Strings.RemoveCharsAppend` | pages/2_Data_Visualization.py:23 | character removal works character by character, so the kept characters stay in order |
| `Strings.TrimSlice` | pages/2_Data_Visualization.py:23 | `strip` returns the slice between a leading and a trailing run of whitespace |
| `Visualization.CleanVoteTextIdempotent` | pages/2_Data_Visualization.py:23 | cleaning a cleaned vote-count text changes nothing |
| `Visualization.CleanVoteTextPlain` | pages/2_Data_Visualization.py:23 | text without scale characters and without whitespace at its ends is left as it is by the cleaning |
| `Visualization.CleanVotes` | pages/2_Data_Visualization.py:22-24 | the vote-count coercion never yields text; it is missing exactly when the cleaned text of the cell does not parse, and otherwise the number that text parses to |
| `Visualization.ScaleLetterDropped` | pages/2_Data_Visualization.py:23-24 | a number followed by K, M or B counts as the number itself ("2.5K" is 2.5) |
| `Visualization.ParenthesesDropped` | pages/2_Data_Visualization.py:23-24 | a number in parentheses counts as the number ("(1200)" is 1200) |
| `Visualization.CleanVotesMissing` | pages/2_Data_Visualization.py:23-24 | a missing vote count, written as "None", stays missing |
| `Visualization.CleanVotesStable` | pages/2_Data_Visualization.py:22-24 | a number or a missing value comes through the vote-count coercion unchanged |
| `Visualization.MapColumn` | pages/2_Data_Visualization.py:18-24 | a column write keeps the row count, gives that column the new values and leaves every other column alone |
| `Visualization.CleanRow` | pages/2_Data_Visualization.py:18-24 | cleaning keeps Title, Duration, Censor and Genre, makes Year, Rating and Vote Count non-text, and makes Year or Rating missing exactly when it was missing or its text does not parse |
| `Visualization.CleanTable` | pages/2_Data_Visualization.py:18-24 | the cleaned table has as many rows as the table, each row cleaned on its own |
| `Visualization.ColumnWritesClean` | pages/2_Data_Visualization.py:18-24 | the four whole-column writes, in the page's order, give the row-by-row cleaned table |
| `Visualization.CleanTableIdempotent` | pages/2_Data_Visualization.py:14-24 | cleaning the already-cleaned table again, as every rerun of the page does, changes nothing |
| `Visualization.CleanForVisualization` | pages/2_Data_Visualization.py:9-24 | a missing or empty table stops the page unchanged; otherwise the session's own table object is cleaned in place, same object, same row count |
| `Strings.StrLeTotal` | pages/2_Data_Visualization.py:42 | any two strings are ordered one way or the other |
| `Strings.StrLeTransitive` | pages/2_Data_Visualization.py:42 | string order is transitive |
| `Visualization.CellLeTotal` | pages/2_Data_Visualization.py:42 | any two cells are ordered one way or the other |
| `Visualization.CellLeTransitive` | pages/2_Data_Visualization.py:42 | cell order is transitive |
| `Visualization.DropNa` | pages/2_Data_Visualization.py:42 | `dropna` keeps exactly the rows with both columns present, each as often as in the table |
| `Visualization.Insert` | pages/2_Data_Visualization.py:42 | inserting adds exactly the row |
| `Visualization.InsertOrdered` | pages/2_Data_Visualization.py:42 | inserting into rows ordered by x keeps them ordered |
| `Visualization.SortBy` | pages/2_Data_Visualization.py:42 | sorting is a permutation of the rows |
| `Visualization.SortByOrdered` | pages/2_Data_Visualization.py:42 | sorting orders the rows non-decreasingly by the x column |
| `Visualization.LinePlotData` | pages/2_Data_Visualization.py:42 | the line-plot data holds each row with both chosen columns present as often as the table does, and no other row |
| `Visualization.LinePlotDataSpec` | pages/2_Data_Visualization.py:42 | the line-plot data is ordered by the x column and every row of it has both chosen columns present |

## Left out

- Browser automation: `webdriver.Chrome()`, `driver.get`, `time.sleep`, the CSS-selector lookups and `driver.quit` (scraper.py:9-13, 51). A container is an abstract value, and the page load is an input `PageLoad` that either gives the containers or the exception raised.
- Exceptions raised inside the extraction loop other than the ones the code catches (for example a stale element). The model treats any exception from the scraper as a failed `PageLoad`; in every case the table is left unchanged.
- Streamlit widgets, forms, spinner, messages, page links and `st.stop()`. `Submit` returns the message kind, and `CleanForVisualization` returns whether the page stopped. The table display (pages/1_Data_Collection.py:32-37) is left out, and so is all of Home.py.
- Plotting: `create_plot` except the `dropna` and `sort_values` of line 42, the bar, scatter and histogram branches, and the column selectors (pages/2_Data_Visualization.py:26-79). The `select_dtypes` column lists are pandas dtype introspection.
- Numeric coercion: `pd.to_numeric` produces binary floating point, and it also accepts surrounding whitespace, exponents, "inf", "nan", ".5" and "5.". The model uses exact decimals and the grammar above. `Format` writes a decimal with exactly its scale's fraction digits, not Python's float `repr`.
- `Visualization.CellLe`: in pandas, sorting a column that mixes numbers and text raises `TypeError`. The model instead orders missing < numbers < text. After the cleaning pass the numeric columns hold no text (`CleanRow`).
- `Visualization.SortBy`: `sort_values` uses an unstable quicksort by default, so the model fixes one insertion order. Only sortedness and permutation are claimed, not the order among equal keys.
- `Visualization.AsText`: `astype(str)` writes a missing value as "None", or as "nan" once the column is numeric. Either way the coercion gives a missing value, so the model writes "None" for both.
- Column dtypes: pandas keeps one dtype per column. The model keeps one type per cell.
- Whitespace for `strip()` is the set of characters Python's `str.isspace` accepts.
