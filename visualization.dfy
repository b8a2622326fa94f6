/**
 * The visualization page: it stops when there is nothing to show, otherwise
 * it coerces the Year, Rating and Vote Count columns of the session's table in
 * place, and it prepares the data of a line plot.
 */
module Visualization {
  import opened Wrappers
  import opened Strings
  import opened Numeric
  import opened Records
  import opened Session

  // ---------------------------------------------------------------- cells

  /** `pd.to_numeric(cell, errors='coerce')`: numbers stay, text that parses
      becomes a number, everything else becomes missing. */
  function ToNumeric(c: Cell): (r: Cell)
    ensures !r.Text?
    ensures c.Num? ==> r == c
    ensures r.Missing? <==> c.Missing? || (c.Text? && ParseDecimal(c.text).None?)
    ensures c.Text? && ParseDecimal(c.text).Some? ==> r == Num(ParseDecimal(c.text).value)
  {
    match c
    case Missing => Missing
    case Num(_) => c
    case Text(s) =>
      match ParseDecimal(s)
      case None => Missing
      case Some(d) => Num(d)
  }

  /** The text of a number coerces back to that number. */
  lemma ToNumericFormat(d: Decimal)
    ensures ToNumeric(Text(Format(d))) == Num(d)
  {
    ParseFormat(d);
  }

  /** `astype(str)` of one cell: a missing value is written "None". */
  function AsText(c: Cell): string {
    match c
    case Missing => "None"
    case Text(s) => s
    case Num(d) => Format(d)
  }

  /** The characters the pattern `[()KMB]+` matches. */
  const ScaleChars: set<char> := {'(', ')', 'K', 'M', 'B'}

  /** `.str.replace(r'[()KMB]+', '', regex=True).str.strip()` on one vote-count text. */
  function CleanVoteText(s: string): (r: string)
    ensures forall i :: 0 <= i < |r| ==> r[i] !in ScaleChars
    ensures r == [] || (r[0] !in Whitespace && r[|r| - 1] !in Whitespace)
  {
    Strip(RemoveChars(s, ScaleChars))
  }

  /** Cleaning a cleaned vote-count text changes nothing. */
  lemma CleanVoteTextIdempotent(s: string)
    ensures CleanVoteText(CleanVoteText(s)) == CleanVoteText(s)
  {
    var r := CleanVoteText(s);
    assert RemoveChars(r, ScaleChars) == r;
    StripUnchanged(r);
  }

  /** The Vote Count column's text after `astype(str)` and the cleaning. */
  function VoteText(c: Cell): (r: Cell)
    ensures r.Text?
  {
    Text(CleanVoteText(AsText(c)))
  }

  /** Vote Count's whole coercion: text, cleaning, then `pd.to_numeric`. */
  function CleanVotes(c: Cell): (r: Cell)
    ensures !r.Text?
    ensures var t := CleanVoteText(AsText(c));
      (r.Missing? <==> ParseDecimal(t).None?) && (r.Num? ==> r == Num(ParseDecimal(t).value))
  {
    ToNumeric(VoteText(c))
  }

  lemma NumberCharPlain(c: char)
    requires IsDigit(c) || c in {'.', '-'}
    ensures c !in ScaleChars && c !in Whitespace
  {
  }

  /** The text of a number passes the vote-count cleaning unchanged. */
  lemma CleanVoteTextOfFormat(d: Decimal)
    ensures CleanVoteText(Format(d)) == Format(d)
  {
    var t := Format(d);
    FormatChars(d);
    forall i | 0 <= i < |t| ensures t[i] !in ScaleChars && t[i] !in Whitespace {
      NumberCharPlain(t[i]);
    }
    CleanVoteTextPlain(t);
  }

  /** The scale letter is dropped, not applied: "2.5K" counts 2.5 votes. */
  lemma ScaleLetterDropped(d: Decimal, letter: char)
    requires letter in {'K', 'M', 'B'}
    ensures CleanVotes(Text(Format(d) + [letter])) == Num(d)
  {
    var t := Format(d);
    RemoveCharsAppend(t, [letter], ScaleChars);
    assert RemoveChars([letter], ScaleChars) == [];
    assert RemoveChars(t + [letter], ScaleChars) == RemoveChars(t, ScaleChars);
    CleanVoteTextOfFormat(d);
    ToNumericFormat(d);
  }

  /** Parentheses are dropped: "(1200)" counts 1200 votes. */
  lemma ParenthesesDropped(d: Decimal)
    ensures CleanVotes(Text("(" + Format(d) + ")")) == Num(d)
  {
    var t := Format(d);
    RemoveCharsAppend("(", t, ScaleChars);
    RemoveCharsAppend("(" + t, ")", ScaleChars);
    assert RemoveChars("(", ScaleChars) == [] && RemoveChars(")", ScaleChars) == [];
    assert RemoveChars("(" + t + ")", ScaleChars) == RemoveChars(t, ScaleChars);
    CleanVoteTextOfFormat(d);
    ToNumericFormat(d);
  }

  /** A cell that is already a number or missing survives the vote-count coercion. */
  lemma CleanVotesStable(c: Cell)
    requires !c.Text?
    ensures CleanVotes(c) == c
  {
    match c
    case Num(d) =>
      CleanVoteTextOfFormat(d);
      ToNumericFormat(d);
    case Missing =>
      CleanVotesMissing();
  }

  /** A missing vote count is written "None", which does not parse. */
  lemma CleanVotesMissing()
    ensures CleanVotes(Missing) == Missing
  {
    var s := "None";
    assert s[0] == 'N' && s[1] == 'o' && s[2] == 'n' && s[3] == 'e';
    CleanVoteTextPlain(s);
  }

  /** Text with no scale character and no whitespace at its ends is left alone
      by the vote-count cleaning. */
  lemma CleanVoteTextPlain(s: string)
    requires forall i :: 0 <= i < |s| ==> s[i] !in ScaleChars
    requires s == [] || (s[0] !in Whitespace && s[|s| - 1] !in Whitespace)
    ensures CleanVoteText(s) == s
  {
    assert RemoveChars(s, ScaleChars) == s;
    StripUnchanged(s);
  }

  // ---------------------------------------------------------------- columns

  /** `df[col] = f(df[col])`: a whole-column write. */
  function MapColumn(rows: seq<Row>, col: Column, f: Cell -> Cell): (r: seq<Row>)
    ensures |r| == |rows|
    ensures forall i :: 0 <= i < |r| ==> Get(r[i], col) == f(Get(rows[i], col))
    ensures forall i, c :: 0 <= i < |r| && c != col ==> Get(r[i], c) == Get(rows[i], c)
  {
    seq(|rows|, i requires 0 <= i < |rows| => Set(rows[i], col, f(Get(rows[i], col))))
  }

  /** One row after the cleaning pass: Title, Duration, Censor and Genre are left
      alone, Year, Rating and Vote Count become numeric, and a value that does
      not parse becomes missing. */
  function CleanRow(row: Row): (r: Row)
    ensures r.title == row.title && r.duration == row.duration && r.censor == row.censor && r.genre == row.genre
    ensures !r.year.Text? && !r.rating.Text? && !r.voteCount.Text?
    ensures r.year.Missing? <==> row.year.Missing? || (row.year.Text? && ParseDecimal(row.year.text).None?)
    ensures r.rating.Missing? <==> row.rating.Missing? || (row.rating.Text? && ParseDecimal(row.rating.text).None?)
  {
    row.(year := ToNumeric(row.year), rating := ToNumeric(row.rating), voteCount := CleanVotes(row.voteCount))
  }

  /** The table after the cleaning pass, row by row. */
  function CleanTable(rows: seq<Row>): (r: seq<Row>)
    ensures |r| == |rows|
    ensures forall i :: 0 <= i < |r| ==> r[i] == CleanRow(rows[i])
  {
    seq(|rows|, i requires 0 <= i < |rows| => CleanRow(rows[i]))
  }

  /** Every run of the page cleans the stored table again; the second pass
      changes nothing. */
  lemma {:induction false} CleanTableIdempotent(rows: seq<Row>)
    ensures CleanTable(CleanTable(rows)) == CleanTable(rows)
  {
    forall i | 0 <= i < |rows|
      ensures CleanRow(CleanRow(rows[i])) == CleanRow(rows[i])
    {
      CleanVotesStable(CleanVotes(rows[i].voteCount));
    }
  }

  /** The page's four column writes, in order, give the cleaned table. */
  lemma ColumnWritesClean(rows: seq<Row>)
    ensures MapColumn(MapColumn(MapColumn(MapColumn(rows, Year, ToNumeric), Rating, ToNumeric),
      VoteCount, VoteText), VoteCount, ToNumeric) == CleanTable(rows)
  {
    var r4 := MapColumn(MapColumn(MapColumn(MapColumn(rows, Year, ToNumeric), Rating, ToNumeric),
      VoteCount, VoteText), VoteCount, ToNumeric);
    forall i | 0 <= i < |rows| ensures r4[i] == CleanRow(rows[i]) {
      ColumnWritesCleanAt(rows, i);
    }
  }

  lemma ColumnWritesCleanAt(rows: seq<Row>, i: int)
    requires 0 <= i < |rows|
    ensures MapColumn(MapColumn(MapColumn(MapColumn(rows, Year, ToNumeric), Rating, ToNumeric),
      VoteCount, VoteText), VoteCount, ToNumeric)[i] == CleanRow(rows[i])
  {
    var r1 := MapColumn(rows, Year, ToNumeric);
    var r2 := MapColumn(r1, Rating, ToNumeric);
    var r3 := MapColumn(r2, VoteCount, VoteText);
    var r4 := MapColumn(r3, VoteCount, ToNumeric);
    var row := rows[i];
    assert r1[i] == row.(year := ToNumeric(row.year));
    assert r2[i] == r1[i].(rating := ToNumeric(row.rating));
    assert r3[i] == r2[i].(voteCount := VoteText(row.voteCount));
    assert r4[i] == r3[i].(voteCount := ToNumeric(VoteText(row.voteCount)));
  }

  /** The page's cleaning. `df` is the session's own table, so the column
      writes change the stored collection. */
  method CleanForVisualization(session: SessionState) returns (stopped: bool)
    modifies session.movieDf
    ensures session.movieDf == old(session.movieDf)
    ensures stopped <==> session.movieDf == null || old(session.movieDf.rows) == []
    ensures session.movieDf != null ==>
      session.movieDf.rows == if stopped then old(session.movieDf.rows) else CleanTable(old(session.movieDf.rows))
  {
    if session.movieDf == null || session.movieDf.rows == [] {
      return true;
    }
    var df := session.movieDf;
    ghost var before := df.rows;
    df.rows := MapColumn(df.rows, Year, ToNumeric);
    df.rows := MapColumn(df.rows, Rating, ToNumeric);
    df.rows := MapColumn(df.rows, VoteCount, VoteText);
    df.rows := MapColumn(df.rows, VoteCount, ToNumeric);
    ColumnWritesClean(before);
    stopped := false;
  }

  // ---------------------------------------------------------------- line plot

  /** The order `sort_values` puts a column in: numbers by value, text by code
      point. Missing cells never reach it; a column mixing numbers and text
      makes pandas raise, and the model puts numbers first. */
  predicate CellLe(a: Cell, b: Cell) {
    match (a, b)
    case (Missing, _) => true
    case (_, Missing) => false
    case (Num(x), Num(y)) => x.Value() <= y.Value()
    case (Num(_), Text(_)) => true
    case (Text(_), Num(_)) => false
    case (Text(s), Text(t)) => StrLe(s, t)
  }

  lemma CellLeTotal(a: Cell, b: Cell)
    ensures CellLe(a, b) || CellLe(b, a)
  {
    if a.Text? && b.Text? {
      StrLeTotal(a.text, b.text);
    }
  }

  lemma CellLeTransitive(a: Cell, b: Cell, c: Cell)
    requires CellLe(a, b) && CellLe(b, c)
    ensures CellLe(a, c)
  {
    if a.Text? && b.Text? && c.Text? {
      StrLeTransitive(a.text, b.text, c.text);
    }
  }

  /** Both chosen columns hold a value. */
  predicate Complete(row: Row, x: Column, y: Column) {
    !Get(row, x).Missing? && !Get(row, y).Missing?
  }

  /** `dropna(subset=[x, y])`. */
  function DropNa(rows: seq<Row>, x: Column, y: Column): (r: seq<Row>)
    ensures forall i :: 0 <= i < |r| ==> Complete(r[i], x, y)
    ensures forall row :: multiset(r)[row] == if Complete(row, x, y) then multiset(rows)[row] else 0
  {
    if rows == [] then []
    else
      assert rows == [rows[0]] + rows[1..];
      (if Complete(rows[0], x, y) then [rows[0]] else []) + DropNa(rows[1..], x, y)
  }

  predicate Ordered(rows: seq<Row>, x: Column) {
    forall i, j :: 0 <= i < j < |rows| ==> CellLe(Get(rows[i], x), Get(rows[j], x))
  }

  function Insert(row: Row, rows: seq<Row>, x: Column): (r: seq<Row>)
    ensures multiset(r) == multiset(rows) + multiset{row}
  {
    if rows == [] || CellLe(Get(row, x), Get(rows[0], x)) then [row] + rows
    else
      assert rows == [rows[0]] + rows[1..];
      [rows[0]] + Insert(row, rows[1..], x)
  }

  lemma {:induction false} InsertOrdered(row: Row, rows: seq<Row>, x: Column)
    requires Ordered(rows, x)
    ensures Ordered(Insert(row, rows, x), x)
  {
    var r := Insert(row, rows, x);
    if rows == [] {
    } else if CellLe(Get(row, x), Get(rows[0], x)) {
      forall j | 1 <= j < |r| ensures CellLe(Get(row, x), Get(r[j], x)) {
        if j > 1 {
          CellLeTransitive(Get(row, x), Get(rows[0], x), Get(rows[j - 1], x));
        }
      }
    } else {
      var rest := Insert(row, rows[1..], x);
      InsertOrdered(row, rows[1..], x);
      CellLeTotal(Get(row, x), Get(rows[0], x));
      forall j | 0 <= j < |rest| ensures CellLe(Get(rows[0], x), Get(rest[j], x)) {
        assert rest[j] in multiset(rest);
        if rest[j] != row {
          assert rest[j] in multiset(rows[1..]);
          var k :| 0 <= k < |rows[1..]| && rows[1..][k] == rest[j];
          assert rows[k + 1] == rest[j];
        }
      }
    }
  }

  /** `sort_values(by=x)`: an ordering of the rows by column `x`. */
  function SortBy(rows: seq<Row>, x: Column): (r: seq<Row>)
    ensures multiset(r) == multiset(rows)
  {
    if rows == [] then []
    else
      assert rows == [rows[0]] + rows[1..];
      Insert(rows[0], SortBy(rows[1..], x), x)
  }

  lemma {:induction false} SortByOrdered(rows: seq<Row>, x: Column)
    ensures Ordered(SortBy(rows, x), x)
  {
    if rows != [] {
      SortByOrdered(rows[1..], x);
      InsertOrdered(rows[0], SortBy(rows[1..], x), x);
    }
  }

  /** `df.dropna(subset=[x, y]).sort_values(by=x)`. */
  function LinePlotData(rows: seq<Row>, x: Column, y: Column): (r: seq<Row>)
    ensures forall row :: multiset(r)[row] == if Complete(row, x, y) then multiset(rows)[row] else 0
  {
    SortBy(DropNa(rows, x, y), x)
  }

  /** The line plot's data is ordered by the x column and every row of it has
      both columns present. */
  lemma LinePlotDataSpec(rows: seq<Row>, x: Column, y: Column)
    ensures var r := LinePlotData(rows, x, y);
      Ordered(r, x) && forall i :: 0 <= i < |r| ==> Complete(r[i], x, y)
  {
    var r := LinePlotData(rows, x, y);
    SortByOrdered(DropNa(rows, x, y), x);
    forall i | 0 <= i < |r| ensures Complete(r[i], x, y) {
      assert r[i] in multiset(DropNa(rows, x, y));
    }
  }
}
