/** What the pieces of the account list mean on their own: LIKE patterns, pages and the order. */
module AdminListing {
  import opened Wrappers
  import opened AdminSearch

  /** A piece of text that one token of a pattern describes. */
  predicate Fits(token: Token, piece: string) {
    match token
    case AnySequence => true
    case AnyCharacter => |piece| == 1
    case Literal(c) => piece == [c]
  }

  function Concat(pieces: seq<string>): (r: string) {
    if pieces == [] then "" else pieces[0] + Concat(pieces[1..])
  }

  ghost predicate Splits(tokens: seq<Token>, pieces: seq<string>, text: string) {
    && |pieces| == |tokens| && Concat(pieces) == text
    && forall i :: 0 <= i < |tokens| ==> Fits(tokens[i], pieces[i])
  }

  lemma SplitsMore(token: Token, piece: string, tokens: seq<Token>, pieces: seq<string>, text: string)
    requires Splits(tokens, pieces, text) && Fits(token, piece)
    ensures Splits([token] + tokens, [piece] + pieces, piece + text)
  {
    assert ([piece] + pieces)[1..] == pieces;
  }

  /** The pieces of a text that a pattern describes. */
  lemma {:induction false} MatchSplits(tokens: seq<Token>, text: string) returns (pieces: seq<string>)
    requires Matches(tokens, text)
    ensures Splits(tokens, pieces, text)
    decreases |tokens|, |text|
  {
    if tokens == [] {
      pieces := [];
    } else if tokens[0].AnySequence? && !Matches(tokens[1..], text) {
      var longer := MatchSplits(tokens, text[1..]);
      pieces := [[text[0]] + longer[0]] + longer[1..];
      assert pieces[1..] == longer[1..];
      assert Concat(pieces) == [text[0]] + (longer[0] + Concat(longer[1..]));
    } else {
      var piece := if tokens[0].AnySequence? then "" else [text[0]];
      var rest := MatchSplits(tokens[1..], text[|piece|..]);
      SplitsMore(tokens[0], piece, tokens[1..], rest, text[|piece|..]);
      pieces := [piece] + rest;
      assert [tokens[0]] + tokens[1..] == tokens && piece + text[|piece|..] == text;
    }
  }

  lemma {:induction false} SplitMatches(tokens: seq<Token>, pieces: seq<string>, text: string)
    requires Splits(tokens, pieces, text)
    ensures Matches(tokens, text)
    decreases |tokens|, |text|
  {
    if tokens != [] {
      var rest := text[|pieces[0]|..];
      assert text == pieces[0] + Concat(pieces[1..]) && rest == Concat(pieces[1..]);
      if tokens[0].AnySequence? && pieces[0] != "" {
        var shorter := [pieces[0][1..]] + pieces[1..];
        assert shorter[1..] == pieces[1..];
        assert Concat(shorter) == pieces[0][1..] + Concat(pieces[1..]) == text[1..];
        SplitMatches(tokens, shorter, text[1..]);
      } else {
        SplitMatches(tokens[1..], pieces[1..], rest);
      }
    }
  }

  /** LIKE, by itself: the text is a sequence of pieces, one for each token of the pattern. */
  lemma MatchesIffSplits(tokens: seq<Token>, text: string)
    ensures Matches(tokens, text) <==> exists pieces :: Splits(tokens, pieces, text)
  {
    if Matches(tokens, text) {
      var pieces := MatchSplits(tokens, text);
    }
    forall pieces | Splits(tokens, pieces, text)
      ensures Matches(tokens, text)
    {
      SplitMatches(tokens, pieces, text);
    }
  }

  /** The search condition is true, false or NULL: NULL exactly when no column shows the
      search and one of them is NULL. */
  lemma {:induction false} SearchTruth(fold: char -> char, row: Row, columns: seq<Column>, search: string)
    requires Folding(fold)
    ensures var r := AnyILike(fold, row, columns, SearchPattern(search));
            && r.Some?
            && (r.value == True <==> exists i :: 0 <= i < |columns| && Shows(fold, row, columns[i], search))
            && (r.value == Null <==>
                  && (forall i :: 0 <= i < |columns| ==> !Shows(fold, row, columns[i], search))
                  && exists i :: 0 <= i < |columns| && Value(row, columns[i]).None?)
  {
    AnyILikeMeansShows(fold, row, columns, search);
    if columns != [] {
      ILikeMeansShows(fold, row, columns[0], search);
      SearchTruth(fold, row, columns[1..], search);
      forall i | 0 < i < |columns|
        ensures columns[i] == columns[1..][i - 1]
      {
      }
      if exists i :: 0 <= i < |columns[1..]| && Value(row, columns[1..][i]).None? {
        var i :| 0 <= i < |columns[1..]| && Value(row, columns[1..][i]).None?;
        assert Value(row, columns[i + 1]).None?;
      }
    }
  }

  /** A request shows these rows: pages from 1 to a million, of 20 rows unless 1 to 100 are asked for. */
  lemma PageIs(rows: seq<Row>, page: int, size: int)
    ensures var k := if size < 1 then 20 else if size > 100 then 100 else size;
            var p := if page < 1 then 1 else if page > 1_000_000 then 1_000_000 else page;
            && 0 <= (p - 1) * k
            && |Shown(rows, page, size)|
               == (if |rows| <= (p - 1) * k then 0 else if |rows| <= (p - 1) * k + k then |rows| - (p - 1) * k else k)
            && forall i :: 0 <= i < |Shown(rows, page, size)| ==>
                 (p - 1) * k + i < |rows| && Shown(rows, page, size)[i] == rows[(p - 1) * k + i]
  {
    OffsetBounds(ClampPage(page), ClampSize(size));
  }

  /** The OFFSET a request for a page gets, whether it was bounded before or not. */
  lemma OffsetIs(page: int, size: int)
    ensures page <= 1 ==> Offset(page, size) == 0
    ensures 1 < page <= 1_000_000 ==> Offset(page, size) == Offset(page - 1, size) + size
    ensures page > 1_000_000 ==> Offset(page, size) == Offset(1_000_000, size)
  {
    assert (page - 1) * size == (page - 2) * size + size;
  }

  /** The announced number of pages is the smallest that holds every row. */
  lemma PagesAnnounced(total: int, size: int)
    requires size > 0
    ensures total <= 0 ==> PageCount(total, size) == 0
    ensures total > 0 ==> (PageCount(total, size) - 1) * size < total <= PageCount(total, size) * size
  {
    if total > 0 {
      var c := PageCount(total, size);
      assert total + size - 1 == c * size + (total + size - 1) % size;
      assert (c - 1) * size == c * size - size;
    }
  }

  lemma BeforeIsTransitive(collate: Collation, query: Query, a: Row, b: Row, c: Row)
    requires Before(collate, query, a, b) && Before(collate, query, b, c)
    ensures Before(collate, query, a, c)
  {
  }

  ghost predicate Ordered(collate: Collation, query: Query, rows: seq<Row>) {
    forall i, j :: 0 <= i < j < |rows| ==> Before(collate, query, rows[i], rows[j])
  }

  lemma {:induction false} Inserted(collate: Collation, query: Query, row: Row, rows: seq<Row>)
    returns (longer: seq<Row>)
    requires Ordered(collate, query, rows) && forall other :: other in rows ==> other.id != row.id
    ensures Ordered(collate, query, longer) && forall x :: x in longer <==> x == row || x in rows
  {
    if rows == [] {
      longer := [row];
    } else if Before(collate, query, row, rows[0]) {
      longer := [row] + rows;
      forall j | 0 <= j < |rows|
        ensures Before(collate, query, row, rows[j])
      {
        if j > 0 {
          BeforeIsTransitive(collate, query, row, rows[0], rows[j]);
        }
      }
    } else {
      OrderIsTotal(collate, query, row, rows[0]);
      var rest := Inserted(collate, query, row, rows[1..]);
      longer := [rows[0]] + rest;
      assert rows == [rows[0]] + rows[1..];
      forall j | 0 <= j < |rest|
        ensures Before(collate, query, rows[0], rest[j])
      {
        assert rest[j] in rest;
        if rest[j] != row {
          var i :| 0 <= i < |rows[1..]| && rows[1..][i] == rest[j];
          assert rows[i + 1] == rest[j];
        }
      }
    }
  }

  lemma {:induction false} Sorted(collate: Collation, query: Query, table: set<Row>) returns (rows: seq<Row>)
    requires DistinctIds(table)
    ensures Ordered(collate, query, rows) && forall row :: row in rows <==> row in table
  {
    if table == {} {
      rows := [];
    } else {
      var row :| row in table;
      rows := Sorted(collate, query, table - {row});
      rows := Inserted(collate, query, row, rows);
    }
  }

  /** Every table has its listing, so the order is one PostgreSQL can sort by. */
  lemma ListingExists(fold: char -> char, collate: Collation, table: set<Row>, query: Query) returns (rows: seq<Row>)
    requires DistinctIds(table)
    ensures Listing(fold, collate, table, query, rows)
  {
    rows := Sorted(collate, query, set row | row in table && Wanted(fold, row, query));
  }

  /** What a sort column names. */
  function Sorting(row: Row, column: Column): (r: Option<string>) {
    if column == Email then row.email else if column == Username then row.username else row.displayName
  }

  /**
   The order of a listing: by the column in the direction asked for, accounts without a
   value last in either direction, and equal ones by ascending id; by id or by creation,
   with the ids in the same direction.
   */
  lemma ListingOrder(fold: char -> char, collate: Collation, table: set<Row>, query: Query, rows: seq<Row>, i: nat,
      j: nat)
    requires Listing(fold, collate, table, query, rows) && i < j < |rows|
    ensures match query.sort
            case ById => if query.descending then rows[i].id > rows[j].id else rows[i].id < rows[j].id
            case ByCreation =>
              (if query.descending then rows[i].createdAt >= rows[j].createdAt
               else rows[i].createdAt <= rows[j].createdAt)
              && (rows[i].createdAt == rows[j].createdAt ==>
                    if query.descending then rows[i].id > rows[j].id else rows[i].id < rows[j].id)
            case ByColumn(column) =>
              var x, y := Sorting(rows[i], column), Sorting(rows[j], column);
              && (y.Some? ==> x.Some?)
              && (x.None? && y.None? ==> rows[i].id < rows[j].id)
              && (x.Some? && y.Some? ==>
                    && (if query.descending then collate(x.value) >= collate(y.value)
                        else collate(x.value) <= collate(y.value))
                    && (collate(x.value) == collate(y.value) ==> rows[i].id < rows[j].id))
  {
    assert Before(collate, query, rows[i], rows[j]);
  }

  /** A search looks at the email, the username and the display name. */
  lemma SearchLooksAt(fold: char -> char, row: Row, search: string)
    ensures (exists column :: Shows(fold, row, column, search))
       <==> || (row.email.Some? && Contains(Fold(fold, row.email.value), Fold(fold, search)))
            || (row.username.Some? && Contains(Fold(fold, row.username.value), Fold(fold, search)))
            || (row.displayName.Some? && Contains(Fold(fold, row.displayName.value), Fold(fold, search)))
  {
    assert Shows(fold, row, Email, search) || Shows(fold, row, Username, search)
           || Shows(fold, row, DisplayName, search)
      <==> exists column :: Shows(fold, row, column, search);
  }
}
