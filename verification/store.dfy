/**
 * The comment store: the `comments` table as a sequence of rows whose `id`
 * column is a primary key, with the insert done after a publish and the
 * author-history query that feeds the reply drafter.
 */
module Store {
  import opened Wrappers
  import opened Models

  /**
   * The three time formats involved, left uninterpreted: Go's RFC 3339 parser,
   * Go's parser for the layout "2006-01-02 15:04:05", and the text SQLite's
   * `datetime(created_at)` yields for a stored instant.
   */
  datatype TimeFormats = TimeFormats(
    parseRfc3339: string -> Option<Instant>,
    parseDateTime: string -> Option<Instant>,
    sqlDatetime: Instant -> string)

  /** One row of the `comments` table. */
  datatype Row = Row(
    id: string,
    author: string,
    commentText: string,
    sentiment: string,
    score: int,
    response: string,
    userAnswered: bool,
    createdAt: Instant,
    respondedAt: Instant,
    videoId: string)

  datatype Db = Db(rows: seq<Row>)

  const Empty: Db := Db([])

  predicate HasId(db: Db, id: string) {
    exists i :: 0 <= i < |db.rows| && db.rows[i].id == id
  }

  /** The PRIMARY KEY constraint on `id`. */
  predicate KeysUnique(db: Db) {
    forall i, j :: 0 <= i < j < |db.rows| ==> db.rows[i].id != db.rows[j].id
  }

  datatype SaveError =
    | TimestampError(text: string)  // `PublishedAt` is not RFC 3339
    | DuplicateId(id: string)       // the INSERT hit the primary key

  /**
   * `SaveComment`: parses the comment's publication time, then inserts one
   * row. `now` is the response time the Go code takes from the clock.
   */
  function SaveComment(db: Db, formats: TimeFormats, comment: Comment, sentiment: string, score: int,
                       response: string, userAnswered: bool, now: Instant): (r: Result<Db, SaveError>)
    ensures formats.parseRfc3339(comment.publishedAt).None? ==> r == Failure(TimestampError(comment.publishedAt))
    ensures formats.parseRfc3339(comment.publishedAt).Some? && HasId(db, comment.id) ==> r == Failure(DuplicateId(comment.id))
    ensures r.Success? <==> formats.parseRfc3339(comment.publishedAt).Some? && !HasId(db, comment.id)
    ensures r.Success? ==>
      && |r.value.rows| == |db.rows| + 1
      && r.value.rows[..|db.rows|] == db.rows
      && var row := r.value.rows[|db.rows|];
      && row.id == comment.id
      && row.author == comment.authorDisplayName
      && row.commentText == comment.textOriginal
      && row.sentiment == sentiment
      && row.score == score
      && row.response == response
      && row.userAnswered == userAnswered
      && formats.parseRfc3339(comment.publishedAt) == Some(row.createdAt)
      && row.respondedAt == now
      && row.videoId == comment.videoId
    ensures r.Success? && KeysUnique(db) ==> KeysUnique(r.value)
  {
    match formats.parseRfc3339(comment.publishedAt)
    case None => Failure(TimestampError(comment.publishedAt))
    case Some(createdAt) =>
      if HasId(db, comment.id) then Failure(DuplicateId(comment.id))
      else
        Success(Db(db.rows + [Row(comment.id, comment.authorDisplayName, comment.textOriginal, sentiment, score,
                                  response, userAnswered, createdAt, now, comment.videoId)]))
  }

  /** `WHERE author = ?`, keeping table order: every stored copy of a row of the author, and nothing else. */
  function AuthorRows(rows: seq<Row>, author: string): (r: seq<Row>)
    ensures forall x :: multiset(r)[x] == if x.author == author then multiset(rows)[x] else 0
  {
    if |rows| == 0 then []
    else
      var rest := AuthorRows(rows[1..], author);
      assert rows == [rows[0]] + rows[1..];
      assert multiset(rows) == multiset{rows[0]} + multiset(rows[1..]);
      if rows[0].author == author then [rows[0]] + rest else rest
  }

  predicate NewestFirst(rows: seq<Row>) {
    forall i, j :: 0 <= i < j < |rows| ==> rows[i].createdAt >= rows[j].createdAt
  }

  function Insert(row: Row, sorted: seq<Row>): (r: seq<Row>)
    ensures multiset(r) == multiset(sorted) + multiset{row}
  {
    if |sorted| == 0 || row.createdAt >= sorted[0].createdAt then [row] + sorted
    else
      assert sorted == [sorted[0]] + sorted[1..];
      [sorted[0]] + Insert(row, sorted[1..])
  }

  /** No row of `rows` was created after `at`. */
  predicate NoNewerThan(rows: seq<Row>, at: int) {
    forall i :: 0 <= i < |rows| ==> rows[i].createdAt <= at
  }

  /** Inserting into a newest-first list keeps it newest first. */
  lemma {:induction false} InsertNewestFirst(row: Row, sorted: seq<Row>)
    requires NewestFirst(sorted)
    ensures NewestFirst(Insert(row, sorted))
    ensures forall at :: NoNewerThan(sorted, at) && row.createdAt <= at ==> NoNewerThan(Insert(row, sorted), at)
  {
    if |sorted| == 0 || row.createdAt >= sorted[0].createdAt {
      ConsNewestFirst(row, sorted);
    } else {
      var t := Insert(row, sorted[1..]);
      InsertNewestFirst(row, sorted[1..]);
      assert NoNewerThan(sorted[1..], sorted[0].createdAt);
      assert NoNewerThan(t, sorted[0].createdAt);
      ConsNewestFirst(sorted[0], t);
    }
  }

  /** A row no older than every row of a newest-first list can go in front of it. */
  lemma ConsNewestFirst(x: Row, rows: seq<Row>)
    requires NewestFirst(rows)
    requires NoNewerThan(rows, x.createdAt)
    ensures NewestFirst([x] + rows)
  {
    var r := [x] + rows;
    forall i, j | 0 <= i < j < |r| ensures r[i].createdAt >= r[j].createdAt {
      if i == 0 { assert r[j] == rows[j - 1]; }
    }
  }

  /** `ORDER BY created_at DESC` (rows with equal times may come in any order; this keeps one). */
  function SortNewestFirst(rows: seq<Row>): (r: seq<Row>)
    ensures NewestFirst(r)
    ensures multiset(r) == multiset(rows)
  {
    if |rows| == 0 then []
    else
      assert rows == [rows[0]] + rows[1..];
      InsertNewestFirst(rows[0], SortNewestFirst(rows[1..]));
      Insert(rows[0], SortNewestFirst(rows[1..]))
  }

  /** SQLite's `LIMIT`: a negative limit keeps every row. */
  function Take(rows: seq<Row>, limit: int): (r: seq<Row>)
    ensures |r| == if limit < 0 || limit >= |rows| then |rows| else limit
    ensures r == rows[..|r|]
  {
    if limit < 0 || limit >= |rows| then rows else rows[..limit]
  }

  /**
   * The rows `GetLastComments` reads: the author's rows, newest first, at
   * most `limit` of them, and every row of the author left out is no newer
   * than any row kept.
   */
  function SelectLast(db: Db, author: string, limit: int): (r: seq<Row>)
    ensures forall i :: 0 <= i < |r| ==> r[i].author == author
    ensures NewestFirst(r)
    ensures multiset(r) <= multiset(AuthorRows(db.rows, author))
    ensures |r| == var n := |AuthorRows(db.rows, author)|; if limit < 0 || limit >= n then n else limit
    ensures forall x, i :: x in multiset(AuthorRows(db.rows, author)) - multiset(r) && 0 <= i < |r| ==>
              x.createdAt <= r[i].createdAt
  {
    var matching := AuthorRows(db.rows, author);
    SortAndTake(matching, author, limit);
    Take(SortNewestFirst(matching), limit)
  }

  lemma SortAndTake(matching: seq<Row>, author: string, limit: int)
    requires forall x :: x in matching ==> x.author == author
    ensures var r := Take(SortNewestFirst(matching), limit);
      && (forall i :: 0 <= i < |r| ==> r[i].author == author)
      && multiset(r) <= multiset(matching)
      && (forall x, i :: x in multiset(matching) - multiset(r) && 0 <= i < |r| ==> x.createdAt <= r[i].createdAt)
  {
    var sorted := SortNewestFirst(matching);
    var r := Take(sorted, limit);
    TakeNewest(sorted, limit);
    forall i | 0 <= i < |r| ensures r[i].author == author {
      assert r[i] in multiset(r);
      assert r[i] in multiset(matching);
    }
  }

  /** Cutting a newest-first list keeps a sub-multiset, and nothing cut off is newer than what is kept. */
  lemma TakeNewest(sorted: seq<Row>, limit: int)
    requires NewestFirst(sorted)
    ensures multiset(Take(sorted, limit)) <= multiset(sorted)
    ensures forall x, i :: x in multiset(sorted) - multiset(Take(sorted, limit)) && 0 <= i < |Take(sorted, limit)| ==>
              x.createdAt <= Take(sorted, limit)[i].createdAt
  {
    var r := Take(sorted, limit);
    var rest := sorted[|r|..];
    assert sorted == r + rest;
    assert multiset(sorted) == multiset(r) + multiset(rest);
    forall x, i | x in multiset(sorted) - multiset(r) && 0 <= i < |r|
      ensures x.createdAt <= r[i].createdAt
    {
      assert x in multiset(rest);
      assert x in rest;
      var j :| 0 <= j < |rest| && rest[j] == x;
      assert sorted[|r| + j] == x;
      assert sorted[i] == r[i];
    }
  }

  /** True when the stored instant can be read back by one of the two parsers. */
  predicate Readable(formats: TimeFormats, t: Instant) {
    formats.parseRfc3339(formats.sqlDatetime(t)).Some? || formats.parseDateTime(formats.sqlDatetime(t)).Some?
  }

  /** Reads one row back: RFC 3339 first, then the "2006-01-02 15:04:05" layout; the error carries the text. */
  function ReadBack(formats: TimeFormats, row: Row): (r: Result<HistoryEntry, string>)
    ensures r.Success? <==> Readable(formats, row.createdAt)
    ensures r.Failure? ==> r.error == formats.sqlDatetime(row.createdAt)
    ensures r.Success? ==> r.value.commentText == row.commentText && r.value.response == row.response
    ensures r.Success? ==>
      var text := formats.sqlDatetime(row.createdAt);
      if formats.parseRfc3339(text).Some? then Some(r.value.createdAt) == formats.parseRfc3339(text)
      else Some(r.value.createdAt) == formats.parseDateTime(text)
  {
    var text := formats.sqlDatetime(row.createdAt);
    match formats.parseRfc3339(text)
    case Some(t) => Success(HistoryEntry(row.commentText, row.response, t))
    case None =>
      match formats.parseDateTime(text)
      case Some(t) => Success(HistoryEntry(row.commentText, row.response, t))
      case None => Failure(text)
  }

  /** The scan loop: one unreadable row fails the whole call. */
  function ReadAll(formats: TimeFormats, rows: seq<Row>): (r: Result<seq<HistoryEntry>, string>)
    ensures r.Success? <==> forall i :: 0 <= i < |rows| ==> Readable(formats, rows[i].createdAt)
    ensures r.Success? ==>
      && |r.value| == |rows|
      && forall i :: 0 <= i < |rows| ==> ReadBack(formats, rows[i]) == Success(r.value[i])
    ensures r.Success? ==>
      forall i :: 0 <= i < |rows| ==> r.value[i].commentText == rows[i].commentText && r.value[i].response == rows[i].response
  {
    if |rows| == 0 then Success([])
    else
      match ReadBack(formats, rows[0])
      case Failure(e) => Failure(e)
      case Success(entry) =>
        match ReadAll(formats, rows[1..])
        case Failure(e) => Failure(e)
        case Success(entries) => Success([entry] + entries)
  }

  /** `GetLastComments(author, limit)`. */
  function GetLastComments(db: Db, formats: TimeFormats, author: string, limit: int): (r: Result<seq<HistoryEntry>, string>)
    ensures r.Success? <==> forall i :: 0 <= i < |SelectLast(db, author, limit)| ==>
                              Readable(formats, SelectLast(db, author, limit)[i].createdAt)
    ensures r.Success? ==> 0 <= limit ==> |r.value| <= limit
    ensures r.Success? ==>
      var rows := SelectLast(db, author, limit);
      && |r.value| == |rows|
      && forall i :: 0 <= i < |rows| ==> ReadBack(formats, rows[i]) == Success(r.value[i])
    ensures r.Success? ==>
      var rows := SelectLast(db, author, limit);
      forall i :: 0 <= i < |rows| ==> r.value[i].commentText == rows[i].commentText && r.value[i].response == rows[i].response
  {
    ReadAll(formats, SelectLast(db, author, limit))
  }

  /**
   * Round trip: once a comment is saved, its text and the response appear in
   * its author's history, provided the limit leaves room for every row of
   * that author and their times read back.
   */
  lemma SavedCommentInHistory(db: Db, db': Db, formats: TimeFormats, comment: Comment, sentiment: string, score: int,
                              response: string, userAnswered: bool, now: Instant, limit: int)
    requires SaveComment(db, formats, comment, sentiment, score, response, userAnswered, now) == Success(db')
    requires limit < 0 || limit > |AuthorRows(db.rows, comment.authorDisplayName)|
    requires forall i :: 0 <= i < |db'.rows| && db'.rows[i].author == comment.authorDisplayName ==>
               Readable(formats, db'.rows[i].createdAt)
    ensures var h := GetLastComments(db', formats, comment.authorDisplayName, limit);
            && h.Success?
            && exists k :: 0 <= k < |h.value| &&
                 h.value[k].commentText == comment.textOriginal && h.value[k].response == response
  {
    var author := comment.authorDisplayName;
    var row := db'.rows[|db.rows|];
    assert db'.rows == db.rows + [row];
    SavedRowSelected(db, db', author, row, limit);
    SelectedInHistory(db', formats, author, limit, row);
  }

  /** A row just appended for an author is among the rows read back when the limit leaves room for it. */
  lemma SavedRowSelected(db: Db, db': Db, author: string, row: Row, limit: int)
    requires db'.rows == db.rows + [row] && row.author == author
    requires limit < 0 || limit > |AuthorRows(db.rows, author)|
    ensures row in SelectLast(db', author, limit)
  {
    AuthorRowsGrow(db.rows, row, author);
    SelectLastAll(db', author, limit);
    assert row in multiset(SelectLast(db', author, limit));
  }

  /** A selected row's text and response appear in the history when every row of the author reads back. */
  lemma SelectedInHistory(db: Db, formats: TimeFormats, author: string, limit: int, row: Row)
    requires row in SelectLast(db, author, limit)
    requires forall i :: 0 <= i < |db.rows| && db.rows[i].author == author ==> Readable(formats, db.rows[i].createdAt)
    ensures var h := GetLastComments(db, formats, author, limit);
            && h.Success?
            && exists k :: 0 <= k < |h.value| && h.value[k].commentText == row.commentText && h.value[k].response == row.response
  {
    var rows := SelectLast(db, author, limit);
    var k :| 0 <= k < |rows| && rows[k] == row;
    SelectedReadable(db, formats, author, limit);
    var h := GetLastComments(db, formats, author, limit);
    assert h.value[k].commentText == row.commentText && h.value[k].response == row.response;
  }

  lemma SelectedReadable(db: Db, formats: TimeFormats, author: string, limit: int)
    requires forall i :: 0 <= i < |db.rows| && db.rows[i].author == author ==> Readable(formats, db.rows[i].createdAt)
    ensures forall i :: 0 <= i < |SelectLast(db, author, limit)| ==> Readable(formats, SelectLast(db, author, limit)[i].createdAt)
  {
    var rows := SelectLast(db, author, limit);
    var matching := AuthorRows(db.rows, author);
    forall i | 0 <= i < |rows| ensures Readable(formats, rows[i].createdAt) {
      var x := rows[i];
      assert x in multiset(rows);
      assert x in multiset(matching);
      assert x in matching;
      assert x in db.rows && x.author == author;
      var j :| 0 <= j < |db.rows| && db.rows[j] == x;
    }
  }

  /** When the limit leaves room, the query returns every row of the author. */
  lemma SelectLastAll(db: Db, author: string, limit: int)
    requires limit < 0 || limit >= |AuthorRows(db.rows, author)|
    ensures multiset(SelectLast(db, author, limit)) == multiset(AuthorRows(db.rows, author))
  {
    var m := multiset(AuthorRows(db.rows, author));
    var r := multiset(SelectLast(db, author, limit));
    assert r <= m;
    assert |r| == |m|;
    assert m - r == multiset{} by {
      assert |m - r| == |m| - |r|;
    }
  }

  /** Appending a row of the author adds exactly that row to the author's rows. */
  lemma AuthorRowsGrow(rows: seq<Row>, row: Row, author: string)
    requires row.author == author
    ensures multiset(AuthorRows(rows + [row], author)) == multiset(AuthorRows(rows, author)) + multiset{row}
  {
    var grown := multiset(AuthorRows(rows + [row], author));
    var before := multiset(AuthorRows(rows, author));
    assert multiset(rows + [row]) == multiset(rows) + multiset{row};
    forall x
      ensures grown[x] == (before + multiset{row})[x]
    {
    }
  }
}
