/**
 * The history fetcher: one query for the 30 most recent documents of the
 * "lambdaF" collection, one row per document, rows missing a timestamp or a
 * λF value dropped, the rest sorted ascending by timestamp. A null client and
 * a query that raises both give the empty history; only the latter shows an
 * error message.
 */
module History {
  import opened Wrappers
  import opened Records

  /** The query's `limit(30)`. */
  const QueryLimit: nat := 30

  /** What the ordered query does when it runs: streams documents, or raises. */
  datatype QueryReply = Streamed(ordered: seq<Doc>) | Raised

  /** The store client handed to the fetcher: null, or one whose query gives `reply`. */
  datatype Client = NullClient | Connected(reply: QueryReply)

  /** The documents the query delivers: the first `QueryLimit` of the ordered stream. */
  function Limit(ordered: seq<Doc>): (docs: seq<Doc>)
    ensures |docs| <= QueryLimit
    ensures docs <= ordered
    ensures |ordered| <= QueryLimit ==> docs == ordered
    ensures |ordered| > QueryLimit ==> docs == ordered[..QueryLimit]
  {
    if |ordered| <= QueryLimit then ordered else ordered[..QueryLimit]
  }

  /** The row the fetch loop appends for one document. */
  function ToRow(d: Doc): Row
  {
    Row(Get(d.timestamp), Get(d.lambdaF), GetOr(d.status, NotAvailable))
  }

  /** The rows the fetch loop builds, one per document, in stream order. */
  function Rows(docs: seq<Doc>): seq<Row>
  {
    seq(|docs|, i requires 0 <= i < |docs| => ToRow(docs[i]))
  }

  /** A row that survives the drop of incomplete rows. */
  predicate Complete(row: Row)
  {
    row.timestamp.Some? && row.lambdaF.Some?
  }

  function AsRecord(row: Row): Record
    requires Complete(row)
  {
    Record(row.timestamp.value, row.lambdaF.value, row.status)
  }

  /** The number of complete rows. */
  function CountComplete(rows: seq<Row>): nat
  {
    if rows == [] then 0
    else (if Complete(rows[0]) then 1 else 0) + CountComplete(rows[1..])
  }

  /** Drops every row missing a timestamp or a λF value, and no other row. */
  function DropIncomplete(rows: seq<Row>): (r: seq<Record>)
    ensures |r| == CountComplete(rows) <= |rows|
    ensures forall rec :: rec in r ==>
              exists i :: 0 <= i < |rows| && Complete(rows[i]) && AsRecord(rows[i]) == rec
    ensures forall i :: 0 <= i < |rows| && Complete(rows[i]) ==> AsRecord(rows[i]) in r
  {
    if rows == [] then []
    else
      var rest := DropIncomplete(rows[1..]);
      assert forall i :: 1 <= i < |rows| ==> rows[i] == rows[1..][i - 1];
      assert forall rec :: rec in rest ==>
               exists i :: 0 <= i < |rows| && Complete(rows[i]) && AsRecord(rows[i]) == rec by {
        forall rec | rec in rest
          ensures exists i :: 0 <= i < |rows| && Complete(rows[i]) && AsRecord(rows[i]) == rec
        {
          var j :| 0 <= j < |rows[1..]| && Complete(rows[1..][j]) && AsRecord(rows[1..][j]) == rec;
          assert rows[j + 1] == rows[1..][j];
        }
      }
      if Complete(rows[0]) then [AsRecord(rows[0])] + rest else rest
  }

  /** A record no later than every record of an ascending sequence may head it. */
  lemma ConsSorted(x: Record, s: seq<Record>)
    requires SortedAsc(s)
    requires forall y :: y in multiset(s) ==> x.timestamp <= y.timestamp
    ensures SortedAsc([x] + s)
  {
    forall k | 0 <= k < |s| ensures x.timestamp <= s[k].timestamp {
      assert s[k] in multiset(s);
    }
  }

  /** The head of an ascending sequence is no later than any record of its tail. */
  lemma HeadFirst(s: seq<Record>)
    requires SortedAsc(s) && s != []
    ensures forall y :: y in multiset(s[1..]) ==> s[0].timestamp <= y.timestamp
  {
    forall y | y in multiset(s[1..]) ensures s[0].timestamp <= y.timestamp {
      var k :| 0 <= k < |s[1..]| && s[1..][k] == y;
      assert s[k + 1] == y;
    }
  }

  /** Inserts `x` into an ascending sequence, before the first record not earlier than it. */
  function Insert(x: Record, s: seq<Record>): (r: seq<Record>)
    requires SortedAsc(s)
    ensures SortedAsc(r)
    ensures multiset(r) == multiset(s) + multiset{x}
  {
    if s == [] || x.timestamp <= s[0].timestamp then [x] + s
    else
      var tail := Insert(x, s[1..]);
      assert s == [s[0]] + s[1..];
      HeadFirst(s);
      ConsSorted(s[0], tail);
      [s[0]] + tail
  }

  /** Sorts ascending by timestamp; the order among equal timestamps is not promised. */
  function SortByTime(s: seq<Record>): (r: seq<Record>)
    ensures SortedAsc(r)
    ensures multiset(r) == multiset(s)
  {
    if s == [] then []
    else
      assert s == [s[0]] + s[1..];
      Insert(s[0], SortByTime(s[1..]))
  }

  /** Sorting a history that is already ascending leaves it unchanged. */
  lemma {:induction false} SortedFixpoint(s: seq<Record>)
    requires SortedAsc(s)
    ensures SortByTime(s) == s
  {
    if s != [] {
      SortedFixpoint(s[1..]);
      assert SortByTime(s) == Insert(s[0], s[1..]);
    }
  }

  /** Sorting twice sorts once. */
  lemma SortIdempotent(s: seq<Record>)
    ensures SortByTime(SortByTime(s)) == SortByTime(s)
  {
    SortedFixpoint(SortByTime(s));
  }

  lemma TailMultiset(s: seq<Record>)
    requires s != []
    ensures multiset(s[1..]) == multiset(s) - multiset{s[0]}
  {
    assert s == [s[0]] + s[1..];
  }

  /**
   * Two ascending orders of the same records coincide when timestamps are
   * distinct: whatever algorithm sorts, the result is the same.
   */
  lemma {:induction false} SortedUnique(a: seq<Record>, b: seq<Record>)
    requires SortedAsc(a) && SortedAsc(b) && DistinctTimes(a)
    requires multiset(a) == multiset(b)
    ensures a == b
  {
    assert |a| == |multiset(a)| == |multiset(b)| == |b|;
    if a != [] {
      assert a[0] in multiset(b) && b[0] in multiset(a);
      var m :| 0 <= m < |b| && b[m] == a[0];
      var k :| 0 <= k < |a| && a[k] == b[0];
      assert b[0].timestamp <= b[m].timestamp;
      assert a[0] == b[0];
      TailMultiset(a);
      TailMultiset(b);
      SortedUnique(a[1..], b[1..]);
    }
  }

  /** The normalised history of the delivered documents. */
  function Normalise(docs: seq<Doc>): (h: seq<Record>)
    ensures SortedAsc(h)
    ensures |h| <= |docs|
  {
    var kept := DropIncomplete(Rows(docs));
    assert |multiset(SortByTime(kept))| == |multiset(kept)|;
    SortByTime(kept)
  }

  /** The history the fetcher returns for a client. */
  function HistoryOf(client: Client): (h: seq<Record>)
    ensures SortedAsc(h)
    ensures |h| <= QueryLimit
    ensures client.NullClient? || client.reply.Raised? ==> h == []
    ensures client.Connected? && client.reply.Streamed? ==> |h| <= |client.reply.ordered|
  {
    match client
    case NullClient => []
    case Connected(Raised) => []
    case Connected(Streamed(ordered)) => Normalise(Limit(ordered))
  }

  /**
   * The fetch: the loop over the streamed documents appends one row per
   * document; `errorShown` is the error message shown when the query raises.
   */
  method FetchLambdaFData(client: Client) returns (history: seq<Record>, errorShown: bool)
    ensures history == HistoryOf(client)
    ensures errorShown <==> client == Connected(Raised)
  {
    if client.NullClient? {
      return [], false;
    }
    match client.reply
    case Raised =>
      history, errorShown := [], true;
    case Streamed(ordered) =>
      var docs := Limit(ordered);
      var data: seq<Row> := [];
      var i := 0;
      while i < |docs|
        invariant 0 <= i <= |docs|
        invariant |data| == i
        invariant forall k :: 0 <= k < i ==> data[k] == ToRow(docs[k])
      {
        data := data + [ToRow(docs[i])];
        i := i + 1;
      }
      assert data == Rows(docs);
      errorShown := false;
      if data == [] {
        history := [];
      } else {
        history := SortByTime(DropIncomplete(data));
      }
  }

  /** A document with both a timestamp and a λF value. */
  predicate Usable(d: Doc)
  {
    d.timestamp.Value? && d.lambdaF.Value?
  }

  /** The number of usable documents. */
  function CountUsable(docs: seq<Doc>): nat
  {
    if docs == [] then 0
    else (if Usable(docs[0]) then 1 else 0) + CountUsable(docs[1..])
  }

  /**
   * `rec` is the record document `d` gives: its timestamp and λF passed through,
   * its status passed through, "N/A" when the field is absent, nothing when null.
   */
  ghost predicate Yields(d: Doc, rec: Record)
  {
    && d.timestamp == Value(rec.timestamp)
    && d.lambdaF == Value(rec.lambdaF)
    && (d.status.Missing? ==> rec.status == Some(NotAvailable))
    && (d.status.Null? ==> rec.status == None)
    && (d.status.Value? ==> rec.status == Some(d.status.v))
  }

  lemma RowOf(d: Doc)
    ensures Complete(ToRow(d)) <==> Usable(d)
    ensures Complete(ToRow(d)) ==> Yields(d, AsRecord(ToRow(d)))
  {
  }

  /** Every record of the history comes from a usable document, fields passed through. */
  lemma NormaliseSound(docs: seq<Doc>)
    ensures forall rec :: rec in Normalise(docs) ==>
              exists i :: 0 <= i < |docs| && Yields(docs[i], rec)
  {
    var rows := Rows(docs);
    var kept := DropIncomplete(rows);
    forall rec | rec in Normalise(docs)
      ensures exists i :: 0 <= i < |docs| && Yields(docs[i], rec)
    {
      assert rec in multiset(kept);
      assert rec in kept;
      var i :| 0 <= i < |rows| && Complete(rows[i]) && AsRecord(rows[i]) == rec;
      RowOf(docs[i]);
    }
  }

  /** Every usable document, and only those, leaves its record in the history. */
  lemma NormaliseKeepsUsable(docs: seq<Doc>)
    ensures forall i :: 0 <= i < |docs| && Usable(docs[i]) ==>
              exists rec :: rec in Normalise(docs) && Yields(docs[i], rec)
  {
    var rows := Rows(docs);
    var kept := DropIncomplete(rows);
    forall i | 0 <= i < |docs| && Usable(docs[i])
      ensures exists rec :: rec in Normalise(docs) && Yields(docs[i], rec)
    {
      RowOf(docs[i]);
      var rec := AsRecord(rows[i]);
      assert rec in multiset(kept);
      assert rec in multiset(Normalise(docs));
    }
  }

  lemma {:induction false} CountRows(docs: seq<Doc>)
    ensures CountComplete(Rows(docs)) == CountUsable(docs)
  {
    if docs != [] {
      CountRows(docs[1..]);
      assert Rows(docs)[1..] == Rows(docs[1..]);
      RowOf(docs[0]);
    }
  }

  /** No record is dropped beyond the unusable documents, and none is merged. */
  lemma NormaliseCount(docs: seq<Doc>)
    ensures |Normalise(docs)| == CountUsable(docs)
  {
    var kept := DropIncomplete(Rows(docs));
    assert |multiset(Normalise(docs))| == |multiset(kept)|;
    CountRows(docs);
  }

  /** The number of documents that yield `rec`. */
  ghost function Yielding(docs: seq<Doc>, rec: Record): nat
  {
    if docs == [] then 0
    else (if Yields(docs[0], rec) then 1 else 0) + Yielding(docs[1..], rec)
  }

  lemma {:induction false} KeptCount(docs: seq<Doc>, rec: Record)
    ensures multiset(DropIncomplete(Rows(docs)))[rec] == Yielding(docs, rec)
  {
    if docs != [] {
      var rows := Rows(docs);
      assert rows[1..] == Rows(docs[1..]);
      KeptCount(docs[1..], rec);
      RowOf(docs[0]);
      assert Yields(docs[0], rec) <==> Complete(rows[0]) && AsRecord(rows[0]) == rec;
    }
  }

  /**
   * The history holds each record exactly as many times as there are
   * documents that yield it: nothing merged, nothing invented, nothing else dropped.
   */
  lemma NormaliseExact(docs: seq<Doc>, rec: Record)
    ensures multiset(Normalise(docs))[rec] == Yielding(docs, rec)
  {
    KeptCount(docs, rec);
  }
}
