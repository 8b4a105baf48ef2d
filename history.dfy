/** `GET /api/history`: `SELECT * FROM visits ORDER BY timestamp DESC
    LIMIT 10`, answered as the rows and their number, or a 500 error when the
    query throws. The query names no tie-break for equal timestamps; the
    selection property below admits any order among ties, and the function
    that computes one answer puts later-inserted rows first. */
module History {

  import opened Stores

  /** The `LIMIT` of the query. */
  const Limit := 10

  const FailureMessage := "Failed to fetch history"

  datatype HistoryReply =
    | Listed(history: seq<Row>, count: nat)   // 200
    | Failed(status: nat, error: string)      // caught error

  function Min(a: int, b: int): int {
    if a <= b then a else b
  }

  /** Timestamps never increase along `rows`. */
  predicate Descending(rows: seq<Row>) {
    forall i, j :: 0 <= i < j < |rows| ==> rows[i].timestamp >= rows[j].timestamp
  }

  /** What the query promises of an answer: as many rows as the limit allows,
      all taken from the ledger, newest first, and none left out that is
      newer than one returned. */
  ghost predicate IsRecentSelection(ledger: seq<Row>, rows: seq<Row>, limit: nat) {
    && |rows| == Min(limit, |ledger|)
    && multiset(rows) <= multiset(ledger)
    && Descending(rows)
    && forall x, y :: x in multiset(ledger) - multiset(rows) && y in rows ==> x.timestamp <= y.timestamp
  }

  /** Puts `r` into newest-first `rows` after every row at least as new. */
  function Insert(r: Row, rows: seq<Row>): (res: seq<Row>)
    ensures multiset(res) == multiset(rows) + multiset{r}
  {
    if rows == [] then [r]
    else if r.timestamp > rows[0].timestamp then [r] + rows
    else
      assert rows == [rows[0]] + rows[1..];
      [rows[0]] + Insert(r, rows[1..])
  }

  /** The rows newest first; among equal timestamps the later-inserted row
      comes first. */
  function SortNewestFirst(rows: seq<Row>): (res: seq<Row>)
    ensures multiset(res) == multiset(rows)
  {
    if rows == [] then []
    else
      assert rows == [rows[0]] + rows[1..];
      Insert(rows[0], SortNewestFirst(rows[1..]))
  }

  /** The handler: the query's rows and their count, or the error reply. */
  function Fetch(ledger: seq<Row>, readFails: bool): (r: HistoryReply)
    ensures r.Failed? <==> readFails
    ensures r.Failed? ==> r == Failed(500, FailureMessage)
    ensures r.Listed? ==> r.count == |r.history| == Min(Limit, |ledger|)
  {
    if readFails then Failed(500, FailureMessage)
    else
      var sorted := SortNewestFirst(ledger);
      assert |sorted| == |multiset(sorted)| == |ledger|;
      var rows := sorted[..Min(Limit, |ledger|)];
      Listed(rows, |rows|)
  }

  lemma {:induction false} InsertKeepsDescending(r: Row, rows: seq<Row>)
    requires Descending(rows)
    ensures Descending(Insert(r, rows))
  {
    if rows != [] && r.timestamp <= rows[0].timestamp {
      var tail := Insert(r, rows[1..]);
      InsertKeepsDescending(r, rows[1..]);
      forall e | e in tail
        ensures e.timestamp <= rows[0].timestamp
      {
        assert e in multiset(tail);
        if e != r {
          assert e in multiset(rows[1..]);
        }
      }
      assert Insert(r, rows) == [rows[0]] + tail;
    }
  }

  lemma {:induction false} SortIsDescending(rows: seq<Row>)
    ensures Descending(SortNewestFirst(rows))
  {
    if rows != [] {
      SortIsDescending(rows[1..]);
      InsertKeepsDescending(rows[0], SortNewestFirst(rows[1..]));
    }
  }

  /** Splitting a sequence splits its multiset. */
  lemma SplitMultiset(rows: seq<Row>, k: nat)
    requires k <= |rows|
    ensures multiset(rows) == multiset(rows[..k]) + multiset(rows[k..])
  {
    assert rows == rows[..k] + rows[k..];
  }

  /** In a newest-first sequence no row after position k is newer than one
      before it. */
  lemma DescendingSplit(rows: seq<Row>, k: nat)
    requires Descending(rows) && k <= |rows|
    ensures forall x, y :: x in rows[k..] && y in rows[..k] ==> x.timestamp <= y.timestamp
  {
  }

  /** A prefix of a newest-first permutation of the ledger is a valid answer
      to the query. */
  lemma PrefixIsRecentSelection(ledger: seq<Row>, sorted: seq<Row>, limit: nat)
    requires multiset(sorted) == multiset(ledger) && Descending(sorted)
    ensures |sorted| == |ledger|
    ensures IsRecentSelection(ledger, sorted[..Min(limit, |ledger|)], limit)
  {
    assert |sorted| == |multiset(sorted)| == |ledger|;
    var k := Min(limit, |ledger|);
    SplitMultiset(sorted, k);
    DescendingSplit(sorted, k);
    assert multiset(ledger) - multiset(sorted[..k]) == multiset(sorted[k..]);
  }

  /** Whatever the ledger, the handler's rows answer the query: at most ten
      rows, newest first, and no newer row left out; `count` is their number. */
  lemma FetchSelectsMostRecent(ledger: seq<Row>)
    ensures Fetch(ledger, false).Listed?
    ensures IsRecentSelection(ledger, Fetch(ledger, false).history, Limit)
    ensures Fetch(ledger, false).count == |Fetch(ledger, false).history| <= Limit
  {
    SortIsDescending(ledger);
    PrefixIsRecentSelection(ledger, SortNewestFirst(ledger), Limit);
  }

  /** The rows in reverse order. */
  function Reverse(rows: seq<Row>): (res: seq<Row>)
    ensures |res| == |rows|
  {
    if rows == [] then [] else Reverse(rows[1..]) + [rows[0]]
  }

  /** Timestamps never decrease in insertion order. */
  predicate Chronological(rows: seq<Row>) {
    forall i, j :: 0 <= i < j < |rows| ==> rows[i].timestamp <= rows[j].timestamp
  }

  lemma {:induction false} InsertOldest(r: Row, rows: seq<Row>)
    requires forall i :: 0 <= i < |rows| ==> r.timestamp <= rows[i].timestamp
    ensures Insert(r, rows) == rows + [r]
  {
    if rows != [] {
      InsertOldest(r, rows[1..]);
      assert rows == [rows[0]] + rows[1..];
    }
  }

  lemma {:induction false} SortChronological(rows: seq<Row>)
    requires Chronological(rows)
    ensures SortNewestFirst(rows) == Reverse(rows)
    ensures multiset(Reverse(rows)) == multiset(rows)
  {
    if rows != [] {
      var tail := rows[1..];
      assert Chronological(tail);
      SortChronological(tail);
      forall i | 0 <= i < |Reverse(tail)|
        ensures rows[0].timestamp <= Reverse(tail)[i].timestamp
      {
        var e := Reverse(tail)[i];
        assert e in multiset(Reverse(tail));
        assert e in tail;
      }
      InsertOldest(rows[0], Reverse(tail));
    }
  }

  /** When the ledger's timestamps never go back in time (as with a clock
      that does not step backwards), the history is the newest `Limit` rows
      in reverse insertion order. Equal timestamps are ordered by the model's
      tie choice. */
  lemma ChronologicalHistory(ledger: seq<Row>)
    requires Chronological(ledger)
    ensures Fetch(ledger, false).history == Reverse(ledger)[..Min(Limit, |ledger|)]
  {
    SortChronological(ledger);
  }
}
