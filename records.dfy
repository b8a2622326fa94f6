/**
 * One row of the movie table and its seven columns. A cell is missing (Python
 * `None` or pandas `NaN`), a text, or a number once the visualization page has
 * coerced it.
 */
module Records {
  import opened Numeric

  datatype Cell = Missing | Text(text: string) | Num(number: Decimal)

  datatype Row = Row(
    title: Cell,
    year: Cell,
    duration: Cell,
    censor: Cell,
    rating: Cell,
    voteCount: Cell,
    genre: Cell)

  /** The columns 'Title', 'Year', 'Duration', 'Censor', 'Rating', 'Vote Count', 'Genre'. */
  datatype Column = Title | Year | Duration | Censor | Rating | VoteCount | Genre

  function Get(row: Row, col: Column): Cell {
    match col
    case Title => row.title
    case Year => row.year
    case Duration => row.duration
    case Censor => row.censor
    case Rating => row.rating
    case VoteCount => row.voteCount
    case Genre => row.genre
  }

  /** The row with the cell of `col` replaced by `v`, the others unchanged. */
  function Set(row: Row, col: Column, v: Cell): (r: Row)
    ensures Get(r, col) == v
    ensures forall c :: c != col ==> Get(r, c) == Get(row, c)
  {
    match col
    case Title => row.(title := v)
    case Year => row.(year := v)
    case Duration => row.(duration := v)
    case Censor => row.(censor := v)
    case Rating => row.(rating := v)
    case VoteCount => row.(voteCount := v)
    case Genre => row.(genre := v)
  }

  /** Two rows with the same cell in every column are the same row. */
  lemma RowsEqual(a: Row, b: Row)
    requires forall c :: Get(a, c) == Get(b, c)
    ensures a == b
  {
    assert Get(a, Title) == Get(b, Title) && Get(a, Year) == Get(b, Year);
    assert Get(a, Duration) == Get(b, Duration) && Get(a, Censor) == Get(b, Censor);
    assert Get(a, Rating) == Get(b, Rating) && Get(a, VoteCount) == Get(b, VoteCount);
    assert Get(a, Genre) == Get(b, Genre);
  }
}
