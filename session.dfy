/**
 * The state Streamlit keeps between page runs. `movieDf` is the entry
 * 'movie_df' of the session state; `null` means the entry does not exist yet.
 * The table is an object: both pages reach the same `DataFrame` through it.
 */
module Session {
  import opened Records

  /** A pandas DataFrame with the seven movie columns, as a sequence of rows. */
  class DataFrame {
    var rows: seq<Row>

    constructor (rows: seq<Row>)
      ensures this.rows == rows
    {
      this.rows := rows;
    }
  }

  class SessionState {
    var movieDf: DataFrame?

    /** A fresh browser session: no 'movie_df' entry. */
    constructor ()
      ensures movieDf == null
    {
      movieDf := null;
    }
  }
}
